/** Rows of the kick operation table and the classification of one round
    (tidal/auction_rounds.py, first half). */
module Rounds {
  import opened Common

  datatype Op = Kick | Resolve | Sweep | Settled | OtherOp
  datatype Status = Submitted | Confirmed | OtherStatus

  /** A transaction's place on chain. */
  datatype Pos = Pos(block: nat, index: nat)
  {
    predicate Before(other: Pos) {
      block < other.block || (block == other.block && index < other.index)
    }
  }

  /** One row of the table: the columns that linking and classification read. */
  datatype Row = Row(
    id: int,
    op: Op,
    status: Status,
    auction: string,
    token: string,
    tx: Option<string>,
    block: Option<nat>,
    txIndex: Option<nat>,
    minedAt: Option<int>,
    createdAt: Option<int>,
    requested: Option<nat>,
    amount: Option<nat>,
    path: Option<int>,
    link: Option<int>,
    baseline: bool)
  {
    function Position(): Option<Pos> {
      if block.Some? && txIndex.Some? then Some(Pos(block.value, txIndex.value)) else None
    }

    predicate ClosesRound() {
      op.Settled? || (op.Resolve? && path.Some? && path.value in {1, 3, 4, 5})
    }

    predicate SamePair(other: Row) {
      auction == other.auction && token == other.token
    }
  }

  datatype Outcome = NoFill | Productive | Incomplete | Unknown

  datatype Reason =
    | NotAKick | KickSubmitted | KickNotConfirmed | RecoverySubmitted
    | MissingRequestedAmount | InvalidPlacedAmount | RequestedPlacedMismatch | MissingKickChainPosition
    | RoundPairMismatch | MissingRecoveryChainPosition | RecoveryBeforeKick
    | MissingResolutionPath | InvalidResolutionPath | MissingRecoveredAmount
    | MissingLogicalClose | DuplicateLogicalClose | RecoveryAfterClose
    | MissingCloseAmount | InvalidSettlementAmount | RecoveryExceedsPlaced
    | ExactFullRecovery | PositiveFill
    | UnlinkedLogicalClose

  datatype Evidence = Evidence(
    outcome: Outcome,
    reason: Reason,
    kickId: int,
    recoveryIds: seq<int>,
    closeId: Option<int>,
    recovered: Option<nat>,
    kickAt: Option<int>,
    closeAt: Option<int>)
  {
    predicate Completed() {
      outcome.NoFill? || outcome.Productive?
    }
  }

  function Verdict(outcome: Outcome, reason: Reason, kick: Row): Evidence {
    Evidence(outcome, reason, kick.id, [], None, None, kick.minedAt, None)
  }

  // ------------------------------------------------------- the specification

  function LinkedTo(kickId: int): Row -> bool {
    (r: Row) => r.link == Some(kickId)
  }

  /** What is wrong with one linked row, before its kind is looked at. */
  function RowDefect(kick: Row, row: Row): Option<Reason> {
    if !kick.SamePair(row) then Some(RoundPairMismatch)
    else if !row.status.Confirmed? then None
    else if row.Position().None? || row.minedAt.None? then Some(MissingRecoveryChainPosition)
    else if kick.Position().Some? && !kick.Position().value.Before(row.Position().value) then Some(RecoveryBeforeKick)
    else None
  }

  function FirstRowDefect(kick: Row, rows: seq<Row>): (d: Option<Reason>)
    ensures d.None? <==> forall r :: r in rows ==> RowDefect(kick, r).None?
    ensures d.Some? ==> exists r :: r in rows && RowDefect(kick, r) == d
  {
    if |rows| == 0 then None
    else
      var before := FirstRowDefect(kick, rows[..|rows| - 1]);
      assert rows == rows[..|rows| - 1] + [rows[|rows| - 1]];
      if before.Some? then before else RowDefect(kick, rows[|rows| - 1])
  }

  function PathDefect(row: Row): Option<Reason> {
    if row.path.None? then Some(MissingResolutionPath)
    else if !(0 <= row.path.value <= 5) then Some(InvalidResolutionPath)
    else None
  }

  function FirstPathDefect(rows: seq<Row>): (d: Option<Reason>)
    ensures d.None? <==> forall r :: r in rows ==> PathDefect(r).None?
    ensures d.Some? ==> exists r :: r in rows && PathDefect(r) == d
  {
    if |rows| == 0 then None
    else
      var before := FirstPathDefect(rows[..|rows| - 1]);
      assert rows == rows[..|rows| - 1] + [rows[|rows| - 1]];
      if before.Some? then before else PathDefect(rows[|rows| - 1])
  }

  const AMOUNT_OF: Row -> int := (r: Row) => r.amount.GetOr(0)

  function Amounts(rows: seq<Row>): seq<int> {
    Map(AMOUNT_OF, rows)
  }

  function Ids(rows: seq<Row>): seq<int> {
    Map(ID_OF, rows)
  }

  const ID_OF: Row -> int := (r: Row) => r.id

  const IS_CONFIRMED: Row -> bool := (r: Row) => r.status.Confirmed?
  const IS_SWEEP: Row -> bool := (r: Row) => r.op.Sweep?
  const IS_RESOLVE: Row -> bool := (r: Row) => r.op.Resolve?
  const IS_SETTLED: Row -> bool := (r: Row) => r.op.Settled?
  const IS_RETURN: Row -> bool := (r: Row) => r.path == Some(2)
  const CLOSES_BY_PATH: Row -> bool := (r: Row) => r.path.Some? && r.path.value in {1, 3, 4, 5}

  /** Recoveries that hand tokens back without closing: sweeps, then path-2 resolves. */
  function Recoveries(confirmed: seq<Row>): seq<Row> {
    Filter(IS_SWEEP, confirmed) + Filter(IS_RETURN, Filter(IS_RESOLVE, confirmed))
  }

  function Closes(confirmed: seq<Row>): seq<Row> {
    Filter(CLOSES_BY_PATH, Filter(IS_RESOLVE, confirmed)) + Filter(IS_SETTLED, confirmed)
  }

  predicate KickUsable(kick: Row) {
    && kick.requested.Some? && kick.amount.Some? && kick.amount.value > 0
    && kick.requested == kick.amount && kick.Position().Some? && kick.minedAt.Some?
  }

  function KickDefect(kick: Row): Reason
    requires !KickUsable(kick)
  {
    if kick.requested.None? then MissingRequestedAmount
    else if kick.amount.None? || kick.amount.value <= 0 then InvalidPlacedAmount
    else if kick.requested != kick.amount then RequestedPlacedMismatch
    else MissingKickChainPosition
  }

  /** The evidence for one kick: it depends on the rows only through those linked to it. */
  function ClassifyRound(kick: Row, rows: seq<Row>): (e: Evidence)
    ensures e.kickId == kick.id
  {
    if !kick.op.Kick? then Verdict(Unknown, NotAKick, kick)
    else if kick.status.Submitted? then Verdict(Incomplete, KickSubmitted, kick)
    else if !kick.status.Confirmed? then Verdict(Unknown, KickNotConfirmed, kick)
    else ClassifyLinked(kick, Filter(LinkedTo(kick.id), rows))
  }

  function ClassifyLinked(kick: Row, linked: seq<Row>): (e: Evidence)
    ensures e.kickId == kick.id
  {
    if exists r :: r in linked && r.status.Submitted? then Verdict(Incomplete, RecoverySubmitted, kick)
    else if !KickUsable(kick) then Verdict(Unknown, KickDefect(kick), kick)
    else
      var defect := FirstRowDefect(kick, linked);
      if defect.Some? then Verdict(Unknown, defect.value, kick)
      else ClassifyConfirmed(kick, Filter(IS_CONFIRMED, linked))
  }

  function ClassifyConfirmed(kick: Row, confirmed: seq<Row>): (e: Evidence)
    requires KickUsable(kick)
    ensures e.kickId == kick.id
    requires forall r :: r in confirmed ==> r.Position().Some? && r.minedAt.Some?
  {
    var defect := FirstPathDefect(Filter(IS_RESOLVE, confirmed));
    var recoveries, closes := Recoveries(confirmed), Closes(confirmed);
    if defect.Some? then Verdict(Unknown, defect.value, kick)
    else if exists r :: r in recoveries && r.amount.None? then Verdict(Unknown, MissingRecoveredAmount, kick)
    else if |closes| == 0 then Verdict(Incomplete, MissingLogicalClose, kick).(recoveryIds := Ids(recoveries))
    else if |closes| != 1 then Verdict(Unknown, DuplicateLogicalClose, kick).(recoveryIds := Ids(recoveries + closes))
    else ClassifyClosed(kick, Filter(IS_SWEEP, confirmed), recoveries, closes[0])
  }

  function ClassifyClosed(kick: Row, sweeps: seq<Row>, recoveries: seq<Row>, close: Row): (e: Evidence)
    ensures e.kickId == kick.id
    requires KickUsable(kick) && close.Position().Some?
    requires forall r :: r in sweeps ==> r.Position().Some?
  {
    if exists r :: r in sweeps && close.Position().value.Before(r.Position().value)
      then Verdict(Unknown, RecoveryAfterClose, kick)
    else if close.amount.None? then Verdict(Unknown, MissingCloseAmount, kick)
    else if close.op.Settled? && close.amount.value != 0 then Verdict(Unknown, InvalidSettlementAmount, kick)
    else
      var recovered := Sum(Amounts(recoveries)) + close.amount.value;
      SumNonNegative(recoveries);
      var placed := kick.amount.value;
      var outcome := if recovered > placed then Unknown else if recovered == placed then NoFill else Productive;
      var reason := if recovered > placed then RecoveryExceedsPlaced
                    else if recovered == placed then ExactFullRecovery else PositiveFill;
      Evidence(outcome, reason, kick.id, Ids(recoveries + [close]), Some(close.id), Some(recovered),
               kick.minedAt, close.minedAt)
  }

  lemma {:induction false} SumNonNegative(rows: seq<Row>)
    ensures Sum(Amounts(rows)) >= 0
  {
    if |rows| > 0 {
      SumNonNegative(rows[..|rows| - 1]);
      SumAppend(Amounts(rows[..|rows| - 1]), AMOUNT_OF(rows[|rows| - 1]));
    }
  }

  // -------------------------------------------------- permutation invariance

  lemma SameMembers(s: seq<Row>, t: seq<Row>)
    requires multiset(s) == multiset(t)
    ensures |s| == |t|
    ensures forall r :: r in s <==> r in t
  {
    assert |s| == |multiset(s)| && |t| == |multiset(t)|;
    forall r ensures r in s <==> r in t {
      assert r in s <==> r in multiset(s);
      assert r in t <==> r in multiset(t);
    }
  }

  ghost predicate SameEvidence(a: Evidence, b: Evidence) {
    && a.outcome == b.outcome && a.kickId == b.kickId
    && (a.Completed() ==>
          && a.recovered == b.recovered && a.closeId == b.closeId && a.closeAt == b.closeAt
          && multiset(a.recoveryIds) == multiset(b.recoveryIds))
  }

  lemma ClosedPermutes(kick: Row, s1: seq<Row>, s2: seq<Row>, r1: seq<Row>, r2: seq<Row>, close: Row)
    requires KickUsable(kick) && close.Position().Some?
    requires multiset(s1) == multiset(s2) && multiset(r1) == multiset(r2)
    requires forall r :: r in s1 ==> r.Position().Some?
    requires forall r :: r in s2 ==> r.Position().Some?
    ensures SameEvidence(ClassifyClosed(kick, s1, r1, close), ClassifyClosed(kick, s2, r2, close))
  {
    hide Map, Sum;
    SameMembers(s1, s2);
    MapPermutes(AMOUNT_OF, r1, r2);
    SumPermutes(Amounts(r1), Amounts(r2));
    assert multiset(r1 + [close]) == multiset(r2 + [close]);
    MapPermutes(ID_OF, r1 + [close], r2 + [close]);
  }

  lemma ConfirmedPermutes(kick: Row, s: seq<Row>, t: seq<Row>)
    requires KickUsable(kick) && multiset(s) == multiset(t)
    requires forall r :: r in s ==> r.Position().Some? && r.minedAt.Some?
    requires forall r :: r in t ==> r.Position().Some? && r.minedAt.Some?
    ensures SameEvidence(ClassifyConfirmed(kick, s), ClassifyConfirmed(kick, t))
  {
    hide Filter, Sum, Map, FirstPathDefect, ClassifyClosed;
    ConfirmedParts(s, t);
    SameMembers(Filter(IS_RESOLVE, s), Filter(IS_RESOLVE, t));
    SameMembers(Recoveries(s), Recoveries(t));
    SameMembers(Closes(s), Closes(t));
    if |Closes(s)| == 1 {
      assert Closes(s)[0] in Closes(t);
      ClosedPermutes(kick, Filter(IS_SWEEP, s), Filter(IS_SWEEP, t), Recoveries(s), Recoveries(t), Closes(s)[0]);
    }
  }

  lemma ConfirmedParts(s: seq<Row>, t: seq<Row>)
    requires multiset(s) == multiset(t)
    ensures multiset(Filter(IS_SWEEP, s)) == multiset(Filter(IS_SWEEP, t))
    ensures multiset(Filter(IS_RESOLVE, s)) == multiset(Filter(IS_RESOLVE, t))
    ensures multiset(Recoveries(s)) == multiset(Recoveries(t))
    ensures multiset(Closes(s)) == multiset(Closes(t))
  {
    hide Filter;
    FilterPermutes(IS_RESOLVE, s, t);
    FilterPermutes(IS_SWEEP, s, t);
    FilterPermutes(IS_SETTLED, s, t);
    FilterPermutes(IS_RETURN, Filter(IS_RESOLVE, s), Filter(IS_RESOLVE, t));
    FilterPermutes(CLOSES_BY_PATH, Filter(IS_RESOLVE, s), Filter(IS_RESOLVE, t));
  }

  /** The order in which linked rows are presented never changes the outcome; for a
      completed round it changes neither the recovered amount nor the close, and permutes
      the recovery ids. */
  lemma ClassificationPermutes(kick: Row, s: seq<Row>, t: seq<Row>)
    requires multiset(s) == multiset(t)
    ensures SameEvidence(ClassifyRound(kick, s), ClassifyRound(kick, t))
  {
    hide Filter, FirstRowDefect, ClassifyConfirmed;
    var l, m := Filter(LinkedTo(kick.id), s), Filter(LinkedTo(kick.id), t);
    FilterPermutes(LinkedTo(kick.id), s, t);
    SameMembers(l, m);
    if KickUsable(kick) && FirstRowDefect(kick, l).None? {
      FilterPermutes(IS_CONFIRMED, l, m);
      forall r | r in Filter(IS_CONFIRMED, l) ensures r.Position().Some? && r.minedAt.Some? {
        assert RowDefect(kick, r).None?;
      }
      ConfirmedPermutes(kick, Filter(IS_CONFIRMED, l), Filter(IS_CONFIRMED, m));
    }
  }

  // -------------------------------------------------------- the source's loops

  lemma {:induction false} RowDefectStays(kick: Row, rows: seq<Row>, i: nat)
    requires i <= |rows| && FirstRowDefect(kick, rows[..i]).Some?
    ensures FirstRowDefect(kick, rows) == FirstRowDefect(kick, rows[..i])
    decreases |rows|
  {
    if i < |rows| {
      assert rows[..|rows| - 1][..i] == rows[..i];
      RowDefectStays(kick, rows[..|rows| - 1], i);
    } else {
      assert rows[..i] == rows;
    }
  }

  lemma {:induction false} PathDefectStays(rows: seq<Row>, i: nat)
    requires i <= |rows| && FirstPathDefect(rows[..i]).Some?
    ensures FirstPathDefect(rows) == FirstPathDefect(rows[..i])
    decreases |rows|
  {
    if i < |rows| {
      assert rows[..|rows| - 1][..i] == rows[..i];
      PathDefectStays(rows[..|rows| - 1], i);
    } else {
      assert rows[..i] == rows;
    }
  }

  /** The linked rows checked one at a time, collecting the confirmed ones. */
  method CollectConfirmed(kick: Row, linked: seq<Row>) returns (defect: Option<Reason>, confirmed: seq<Row>)
    ensures defect == FirstRowDefect(kick, linked)
    ensures defect.None? ==> confirmed == Filter(IS_CONFIRMED, linked)
  {
    hide FirstRowDefect, Filter;
    confirmed := [];
    assert linked[..0] == [];
    for i := 0 to |linked|
      invariant FirstRowDefect(kick, linked[..i]).None?
      invariant confirmed == Filter(IS_CONFIRMED, linked[..i])
    {
      var row := linked[i];
      assert linked[..i + 1] == linked[..i] + [row];
      FilterAppend(IS_CONFIRMED, linked[..i], row);
      RowDefectAppend(kick, linked[..i], row);
      if RowDefect(kick, row).Some? {
        RowDefectStays(kick, linked, i + 1);
        return RowDefect(kick, row), [];
      }
      if row.status.Confirmed? {
        confirmed := confirmed + [row];
      }
    }
    assert linked[..|linked|] == linked;
    defect := None;
  }

  lemma RowDefectAppend(kick: Row, rows: seq<Row>, row: Row)
    requires FirstRowDefect(kick, rows).None?
    ensures FirstRowDefect(kick, rows + [row]) == RowDefect(kick, row)
  {
    assert (rows + [row])[..|rows|] == rows;
  }

  method CheckPaths(resolves: seq<Row>) returns (defect: Option<Reason>)
    ensures defect == FirstPathDefect(resolves)
  {
    assert resolves[..0] == [];
    for i := 0 to |resolves|
      invariant FirstPathDefect(resolves[..i]).None?
    {
      assert resolves[..i + 1][..i] == resolves[..i];
      if PathDefect(resolves[i]).Some? {
        PathDefectStays(resolves, i + 1);
        return PathDefect(resolves[i]);
      }
    }
    assert resolves[..|resolves|] == resolves;
    return None;
  }

  /** The running total of the recoveries, or nothing if one has no amount. */
  method AddRecoveries(recoveries: seq<Row>) returns (total: Option<int>, ids: seq<int>)
    ensures total.None? <==> exists r :: r in recoveries && r.amount.None?
    ensures total.Some? ==> total.value == Sum(Amounts(recoveries)) && ids == Ids(recoveries)
  {
    var recovered := 0;
    ids := [];
    for i := 0 to |recoveries|
      invariant forall r :: r in recoveries[..i] ==> r.amount.Some?
      invariant recovered == Sum(Amounts(recoveries[..i])) && ids == Ids(recoveries[..i])
    {
      assert recoveries[..i + 1][..i] == recoveries[..i];
      if recoveries[i].amount.None? {
        return None, [];
      }
      recovered := recovered + recoveries[i].amount.value;
      ids := ids + [recoveries[i].id];
      SumAppend(Amounts(recoveries[..i]), AMOUNT_OF(recoveries[i]));
    }
    assert recoveries[..|recoveries|] == recoveries;
    total := Some(recovered);
  }

  /** Classification as the source runs it: early exits and running totals. */
  method Classify(kick: Row, rows: seq<Row>) returns (e: Evidence)
    ensures e == ClassifyRound(kick, rows)
  {
    hide Filter, Sum, Map, FirstRowDefect, FirstPathDefect;
    if !kick.op.Kick? {
      return Verdict(Unknown, NotAKick, kick);
    }
    if kick.status.Submitted? {
      return Verdict(Incomplete, KickSubmitted, kick);
    }
    if !kick.status.Confirmed? {
      return Verdict(Unknown, KickNotConfirmed, kick);
    }
    var linked := Filter(LinkedTo(kick.id), rows);
    if exists r :: r in linked && r.status.Submitted? {
      return Verdict(Incomplete, RecoverySubmitted, kick);
    }
    if !KickUsable(kick) {
      return Verdict(Unknown, KickDefect(kick), kick);
    }
    var defect, confirmed := CollectConfirmed(kick, linked);
    if defect.Some? {
      return Verdict(Unknown, defect.value, kick);
    }
    e := ClassifyEvidence(kick, confirmed);
  }

  method ClassifyEvidence(kick: Row, confirmed: seq<Row>) returns (e: Evidence)
    requires KickUsable(kick)
    requires forall r :: r in confirmed ==> r.Position().Some? && r.minedAt.Some?
    ensures e == ClassifyConfirmed(kick, confirmed)
  {
    hide Filter, Sum, Map, FirstPathDefect;
    var defect := CheckPaths(Filter(IS_RESOLVE, confirmed));
    if defect.Some? {
      return Verdict(Unknown, defect.value, kick);
    }
    var recoveries, closes := Recoveries(confirmed), Closes(confirmed);
    var total, ids := AddRecoveries(recoveries);
    if total.None? {
      return Verdict(Unknown, MissingRecoveredAmount, kick);
    }
    if |closes| == 0 {
      return Verdict(Incomplete, MissingLogicalClose, kick).(recoveryIds := ids);
    }
    MapConcat(ID_OF, recoveries, closes);
    if |closes| != 1 {
      return Verdict(Unknown, DuplicateLogicalClose, kick).(recoveryIds := ids + Ids(closes));
    }
    var close := closes[0];
    assert closes == [close];
    if exists r :: r in Filter(IS_SWEEP, confirmed) && close.Position().value.Before(r.Position().value) {
      return Verdict(Unknown, RecoveryAfterClose, kick);
    }
    if close.amount.None? {
      return Verdict(Unknown, MissingCloseAmount, kick);
    }
    if close.op.Settled? && close.amount.value != 0 {
      return Verdict(Unknown, InvalidSettlementAmount, kick);
    }
    var recovered := total.value + close.amount.value;
    SumNonNegative(recoveries);
    var outcome := if recovered > kick.amount.value then Unknown
                   else if recovered == kick.amount.value then NoFill else Productive;
    var reason := if recovered > kick.amount.value then RecoveryExceedsPlaced
                  else if recovered == kick.amount.value then ExactFullRecovery else PositiveFill;
    OneId(close);
    e := Evidence(outcome, reason, kick.id, ids + [close.id], Some(close.id), Some(recovered),
                  kick.minedAt, close.minedAt);
  }

  lemma OneId(row: Row)
    ensures Ids([row]) == [row.id]
  {
  }

  // ------------------------------------------- what a completed round means

  /** The amount one row gives back to a kick's lot: a confirmed linked sweep, path-2
      resolve or close gives its amount, anything else nothing. */
  predicate GivesBack(kickId: int, r: Row) {
    r.link == Some(kickId) && r.status.Confirmed? && (r.op.Sweep? || (r.op.Resolve?
        && r.path == Some(2)) || r.ClosesRound())
  }

  function GivesBackTo(kickId: int): Row -> bool {
    (r: Row) => GivesBack(kickId, r)
  }

  function ClosesKick(kickId: int): Row -> bool {
    (r: Row) => r.link == Some(kickId) && r.status.Confirmed? && r.ClosesRound()
  }

  ghost function GivenBack(kickId: int, rows: seq<Row>): int {
    Sum(Amounts(Filter(GivesBackTo(kickId), rows)))
  }

  /** Nothing about a linked row casts doubt on the round. */
  ghost predicate Sound(kick: Row, r: Row) {
    r.link == Some(kick.id) ==>
      && !r.status.Submitted? && kick.SamePair(r)
      && (r.status.Confirmed? ==>
            && r.Position().Some? && r.minedAt.Some? && kick.Position().Some?
            && kick.Position().value.Before(r.Position().value)
            && (r.op.Resolve? ==> r.path.Some? && 0 <= r.path.value <= 5)
            && (r.op.Sweep? || (r.op.Resolve? && r.path == Some(2)) ==> r.amount.Some?))
  }

  /** A round is complete: sound evidence, one close with a usable amount, no later sweep,
      and no more given back than was placed. */
  ghost predicate CompleteRound(kick: Row, rows: seq<Row>, close: Row) {
    && kick.op.Kick? && kick.status.Confirmed? && KickUsable(kick)
    && (forall r :: r in rows ==> Sound(kick, r))
    && Filter(ClosesKick(kick.id), rows) == [close]
    && close.amount.Some? && (close.op.Settled? ==> close.amount.value == 0)
    && close.Position().Some?
    && (forall r :: r in rows && r.link == Some(kick.id) && r.status.Confirmed? && r.op.Sweep? && r.Position().Some? ==>
          !close.Position().value.Before(r.Position().value))
    && GivenBack(kick.id, rows) <= kick.amount.value
  }

  lemma CountFilters(kick: Row, rows: seq<Row>)
    ensures var confirmed := Filter(IS_CONFIRMED, Filter(LinkedTo(kick.id), rows));
            && multiset(Closes(confirmed)) == multiset(Filter(ClosesKick(kick.id), rows))
            && multiset(Recoveries(confirmed) + Closes(confirmed)) == multiset(Filter(GivesBackTo(kick.id), rows))
  {
    hide Filter;
    var linked := Filter(LinkedTo(kick.id), rows);
    var confirmed := Filter(IS_CONFIRMED, linked);
    var resolves := Filter(IS_RESOLVE, confirmed);
    forall r
      ensures multiset(Closes(confirmed))[r] == multiset(Filter(ClosesKick(kick.id), rows))[r]
      ensures multiset(Recoveries(confirmed) + Closes(confirmed))[r] == multiset(Filter(GivesBackTo(kick.id), rows))[r]
    {
      FilterCount(LinkedTo(kick.id), rows, r);
      FilterCount(IS_CONFIRMED, linked, r);
      FilterCount(IS_RESOLVE, confirmed, r);
      FilterCount(IS_SWEEP, confirmed, r);
      FilterCount(IS_SETTLED, confirmed, r);
      FilterCount(IS_RETURN, resolves, r);
      FilterCount(CLOSES_BY_PATH, resolves, r);
      FilterCount(ClosesKick(kick.id), rows, r);
      FilterCount(GivesBackTo(kick.id), rows, r);
    }
  }

  lemma SingletonPermutes(s: seq<Row>, t: seq<Row>)
    requires multiset(s) == multiset(t)
    ensures |s| == |t| && (|s| == 1 ==> s == t)
  {
    SameMembers(s, t);
    if |s| == 1 {
      assert s[0] in t && t[0] in s;
    }
  }

  lemma TotalGivenBack(kick: Row, rows: seq<Row>, recoveries: seq<Row>, close: Row)
    requires multiset(recoveries + [close]) == multiset(Filter(GivesBackTo(kick.id), rows))
    ensures GivenBack(kick.id, rows) == Sum(Amounts(recoveries)) + AMOUNT_OF(close)
  {
    var back := Filter(GivesBackTo(kick.id), rows);
    MapPermutes(AMOUNT_OF, recoveries + [close], back);
    SumPermutes(Amounts(recoveries + [close]), Amounts(back));
    MapConcat(AMOUNT_OF, recoveries, [close]);
    assert Amounts([close]) == [AMOUNT_OF(close)];
    SumAppend(Amounts(recoveries), AMOUNT_OF(close));
  }

  /** Completion, said over the whole table at once: the classifier calls a round complete
      exactly when it is, reports exactly what was given back, between nothing and the
      whole lot, and calls it a no-fill exactly when everything came back. */
  lemma CompletedIff(kick: Row, rows: seq<Row>)
    ensures var e := ClassifyRound(kick, rows);
            && (e.Completed() <==> exists close :: CompleteRound(kick, rows, close))
            && (e.Completed() ==>
                  && kick.amount.Some?
                  && e.recovered == Some(GivenBack(kick.id, rows)) && 0 <= e.recovered.value <= kick.amount.value
                  && (e.outcome.NoFill? <==> e.recovered == kick.amount)
                  && CompleteRound(kick, rows, Filter(ClosesKick(kick.id), rows)[0])
                  && e.closeId == Some(Filter(ClosesKick(kick.id), rows)[0].id)
                  && e.closeAt == Filter(ClosesKick(kick.id), rows)[0].minedAt)
  {
    hide Filter, Sum, Map, FirstRowDefect, FirstPathDefect;
    var e := ClassifyRound(kick, rows);
    var linked := Filter(LinkedTo(kick.id), rows);
    var confirmed := Filter(IS_CONFIRMED, linked);
    var closes := Filter(ClosesKick(kick.id), rows);
    CountFilters(kick, rows);
    SingletonPermutes(Closes(confirmed), closes);
    if |closes| == 1 {
      assert closes == [closes[0]];
      TotalGivenBack(kick, rows, Recoveries(confirmed), closes[0]);
      SumNonNegative(Recoveries(confirmed));
      assert closes[0] in closes;
      if exists close :: CompleteRound(kick, rows, close) {
        CompleteIsCompleted(kick, rows, closes[0]);
      }
      if e.Completed() {
        CompletedIsComplete(kick, rows, closes[0]);
      }
    }
  }

  /** A completed round lists exactly the rows that gave something back, its close last. */
  lemma CompletedIds(kick: Row, rows: seq<Row>)
    requires ClassifyRound(kick, rows).Completed()
    ensures var e := ClassifyRound(kick, rows);
            && multiset(e.recoveryIds) == multiset(Ids(Filter(GivesBackTo(kick.id), rows)))
            && |e.recoveryIds| > 0 && e.closeId == Some(e.recoveryIds[|e.recoveryIds| - 1])
            && e.kickAt == kick.minedAt
  {
    hide Filter, Sum, Map, FirstRowDefect, FirstPathDefect, Recoveries, Closes;
    var confirmed := Filter(IS_CONFIRMED, Filter(LinkedTo(kick.id), rows));
    var recoveries, closes := Recoveries(confirmed), Closes(confirmed);
    CountFilters(kick, rows);
    assert closes == [closes[0]];
    assert ClassifyRound(kick, rows).recoveryIds == Ids(recoveries + closes);
    MapPermutes(ID_OF, recoveries + closes, Filter(GivesBackTo(kick.id), rows));
    MapConcat(ID_OF, recoveries, closes);
    OneId(closes[0]);
  }

  lemma CompletedIsComplete(kick: Row, rows: seq<Row>, close: Row)
    requires ClassifyRound(kick, rows).Completed()
    requires Filter(ClosesKick(kick.id), rows) == [close]
    requires Closes(Filter(IS_CONFIRMED, Filter(LinkedTo(kick.id), rows))) == [close]
    requires GivenBack(kick.id, rows) ==
             Sum(Amounts(Recoveries(Filter(IS_CONFIRMED, Filter(LinkedTo(kick.id), rows))))) + AMOUNT_OF(close)
    ensures CompleteRound(kick, rows, close)
  {
    hide Filter, Sum, Map, FirstRowDefect, FirstPathDefect;
    var linked := Filter(LinkedTo(kick.id), rows);
    var confirmed := Filter(IS_CONFIRMED, linked);
    assert close in Filter(ClosesKick(kick.id), rows);
    forall r | r in rows ensures Sound(kick, r) {
      if r.link == Some(kick.id) {
        assert r in linked;
        assert RowDefect(kick, r).None?;
        if r.status.Confirmed? {
          assert r in confirmed;
          if r.op.Resolve? {
            assert r in Filter(IS_RESOLVE, confirmed);
            assert PathDefect(r).None?;
            assert r.path == Some(2) ==> r in Recoveries(confirmed);
          }
          assert r.op.Sweep? ==> r in Recoveries(confirmed);
        }
      }
    }
    forall r | r in rows && r.link == Some(kick.id) && r.status.Confirmed? && r.op.Sweep? && r.Position().Some?
      ensures !close.Position().value.Before(r.Position().value)
    {
      assert r in linked && r in confirmed && r in Filter(IS_SWEEP, confirmed);
    }
  }

  lemma CompleteIsCompleted(kick: Row, rows: seq<Row>, close: Row)
    requires exists c :: CompleteRound(kick, rows, c)
    requires Filter(ClosesKick(kick.id), rows) == [close]
    requires Closes(Filter(IS_CONFIRMED, Filter(LinkedTo(kick.id), rows))) == [close]
    requires GivenBack(kick.id, rows) ==
             Sum(Amounts(Recoveries(Filter(IS_CONFIRMED, Filter(LinkedTo(kick.id), rows))))) + AMOUNT_OF(close)
    ensures ClassifyRound(kick, rows).Completed()
  {
    hide Filter, Sum, Map, FirstRowDefect, FirstPathDefect;
    var c :| CompleteRound(kick, rows, c);
    assert [close][0] == [c][0];
    var linked := Filter(LinkedTo(kick.id), rows);
    var confirmed := Filter(IS_CONFIRMED, linked);
    forall r | r in linked ensures Sound(kick, r) && RowDefect(kick, r).None? {
      assert r in rows;
    }
    forall r | r in Filter(IS_RESOLVE, confirmed) ensures PathDefect(r).None? {
      assert r in linked && Sound(kick, r);
    }
    forall r | r in Recoveries(confirmed) ensures r.amount.Some? {
      assert r in confirmed && r in linked && Sound(kick, r);
    }
    forall r | r in Filter(IS_SWEEP, confirmed) ensures !close.Position().value.Before(r.Position().value) {
      assert r in confirmed && r in linked && Sound(kick, r) && r in rows;
    }
  }

  // ------------------------------------------- what the other verdicts mean

  /** Some transaction of the round is still out: its kick's, or a linked row's. */
  ghost predicate AwaitsReceipt(kick: Row, rows: seq<Row>) {
    || kick.status.Submitted?
    || (kick.status.Confirmed? && exists r :: r in rows && r.link == Some(kick.id) && r.status.Submitted?)
  }

  /** The kick placed on chain what it was asked to, and all there is is in order, but no
      settlement and no resolve other than on paths 0 and 2 is linked to it. */
  ghost predicate AwaitsClose(kick: Row, rows: seq<Row>) {
    && kick.status.Confirmed? && kick.block.Some? && kick.txIndex.Some? && kick.minedAt.Some?
    && kick.amount.Some? && kick.amount.value > 0 && kick.requested == kick.amount
    && (forall r :: r in rows ==> Sound(kick, r))
    && forall r :: r in rows && r.link == Some(kick.id) && r.status.Confirmed? ==>
         !r.op.Settled? && (r.op.Resolve? ==> r.path == Some(0) || r.path == Some(2))
  }

  lemma NoCloses(kick: Row, rows: seq<Row>)
    ensures var confirmed := Filter(IS_CONFIRMED, Filter(LinkedTo(kick.id), rows));
            |Closes(confirmed)| == 0 <==>
            forall r :: r in rows && r.link == Some(kick.id) && r.status.Confirmed? ==> !r.ClosesRound()
  {
    CountFilters(kick, rows);
    hide Filter, Closes;
    var confirmed := Filter(IS_CONFIRMED, Filter(LinkedTo(kick.id), rows));
    var closes := Filter(ClosesKick(kick.id), rows);
    SameMembers(Closes(confirmed), closes);
    if r :| r in rows && ClosesKick(kick.id)(r) {
      assert r in closes;
    }
    if |closes| > 0 {
      assert closes[0] in closes;
    }
  }

  /** The linked rows pass every check before the close is looked for exactly if each is
      sound. */
  lemma SoundIff(kick: Row, rows: seq<Row>)
    requires KickUsable(kick)
    requires forall r :: r in rows && r.link == Some(kick.id) ==> !r.status.Submitted?
    ensures var linked := Filter(LinkedTo(kick.id), rows);
            var confirmed := Filter(IS_CONFIRMED, linked);
            (forall r :: r in rows ==> Sound(kick, r)) <==>
              && FirstRowDefect(kick, linked).None? && FirstPathDefect(Filter(IS_RESOLVE, confirmed)).None?
              && forall r :: r in Recoveries(confirmed) ==> r.amount.Some?
  {
    hide Filter, FirstRowDefect, FirstPathDefect;
    var linked := Filter(LinkedTo(kick.id), rows);
    var confirmed := Filter(IS_CONFIRMED, linked);
    if forall r :: r in rows ==> Sound(kick, r) {
      forall r | r in linked ensures RowDefect(kick, r).None? {
        assert Sound(kick, r);
      }
      forall r | r in Filter(IS_RESOLVE, confirmed) ensures PathDefect(r).None? {
        assert r in confirmed && r in linked && Sound(kick, r);
      }
      forall r | r in Recoveries(confirmed) ensures r.amount.Some? {
        assert r in confirmed && r in linked && Sound(kick, r);
      }
    } else {
      var r :| r in rows && !Sound(kick, r);
      assert r in linked;
      if RowDefect(kick, r).None? {
        assert r in confirmed;
        assert r.op.Resolve? ==> r in Filter(IS_RESOLVE, confirmed);
      }
    }
  }

  /** Open rounds, said over the whole table: a round is incomplete exactly when one of its
      transactions is still out, or all there is is in order and no close is among it. What
      is neither complete nor open is in doubt. */
  lemma IncompleteIff(kick: Row, rows: seq<Row>)
    ensures var e := ClassifyRound(kick, rows);
            && (e.outcome.Incomplete? <==> kick.op.Kick? && (AwaitsReceipt(kick, rows) || AwaitsClose(kick, rows)))
            && (e.outcome.Unknown? <==>
                  && !(kick.op.Kick? && (AwaitsReceipt(kick, rows) || AwaitsClose(kick, rows)))
                  && !exists close :: CompleteRound(kick, rows, close))
  {
    CompletedIff(kick, rows);
    hide Filter, Sum, Map, FirstRowDefect, FirstPathDefect, CompleteRound, Recoveries, Closes;
    var linked := Filter(LinkedTo(kick.id), rows);
    var out := exists r :: r in linked && r.status.Submitted?;
    assert out <==> exists r :: r in rows && r.link == Some(kick.id) && r.status.Submitted?;
    if kick.op.Kick? && kick.status.Confirmed? && !out && KickUsable(kick) {
      NoCloses(kick, rows);
      SoundIff(kick, rows);
    }
  }

  predicate LinkedConfirmed(kick: Row, r: Row) {
    r.link == Some(kick.id) && r.status.Confirmed?
  }

  /** What a reported reason says about the kick and the table. */
  ghost predicate Holds(reason: Reason, kick: Row, rows: seq<Row>) {
    match reason
    case NotAKick => !kick.op.Kick?
    case KickSubmitted => kick.status.Submitted?
    case KickNotConfirmed => !kick.status.Submitted? && !kick.status.Confirmed?
    case RecoverySubmitted => exists r :: r in rows && r.link == Some(kick.id) && r.status.Submitted?
    case MissingRequestedAmount => kick.requested.None?
    case InvalidPlacedAmount => kick.amount.None? || kick.amount == Some(0)
    case RequestedPlacedMismatch => kick.requested.Some? && kick.amount.Some? && kick.requested != kick.amount
    case MissingKickChainPosition => kick.block.None? || kick.txIndex.None? || kick.minedAt.None?
    case RoundPairMismatch =>
      exists r :: r in rows && r.link == Some(kick.id) && (r.auction != kick.auction || r.token != kick.token)
    case MissingRecoveryChainPosition =>
      exists r :: r in rows && LinkedConfirmed(kick, r) && (r.block.None? || r.txIndex.None? || r.minedAt.None?)
    case RecoveryBeforeKick =>
      exists r :: r in rows && LinkedConfirmed(kick, r) && kick.Position().Some? && r.Position().Some?
                  && !kick.Position().value.Before(r.Position().value)
    case MissingResolutionPath => exists r :: r in rows && LinkedConfirmed(kick, r) && r.op.Resolve? && r.path.None?
    case InvalidResolutionPath =>
      exists r :: r in rows && LinkedConfirmed(kick, r) && r.op.Resolve? && r.path.Some? && !(0 <= r.path.value <= 5)
    case MissingRecoveredAmount =>
      exists r :: r in rows && LinkedConfirmed(kick, r) && r.amount.None?
                  && (r.op.Sweep? || (r.op.Resolve? && r.path == Some(2)))
    case MissingLogicalClose => forall r :: r in rows && LinkedConfirmed(kick, r) ==> !r.ClosesRound()
    case DuplicateLogicalClose => |Filter(ClosesKick(kick.id), rows)| > 1
    case RecoveryAfterClose =>
      exists c, r :: c in rows && ClosesKick(kick.id)(c) && r in rows && LinkedConfirmed(kick, r) && r.op.Sweep?
                     && c.Position().Some? && r.Position().Some? && c.Position().value.Before(r.Position().value)
    case MissingCloseAmount => exists c :: c in rows && ClosesKick(kick.id)(c) && c.amount.None?
    case InvalidSettlementAmount =>
      exists c :: c in rows && ClosesKick(kick.id)(c) && c.op.Settled? && c.amount.Some? && c.amount.value != 0
    case RecoveryExceedsPlaced => kick.amount.Some? && GivenBack(kick.id, rows) > kick.amount.value
    case ExactFullRecovery => kick.amount.Some? && GivenBack(kick.id, rows) == kick.amount.value
    case PositiveFill => kick.amount.Some? && GivenBack(kick.id, rows) < kick.amount.value
    case UnlinkedLogicalClose => false
  }

  lemma LinkedRows(kick: Row, rows: seq<Row>, r: Row)
    ensures r in Filter(LinkedTo(kick.id), rows) <==> r in rows && r.link == Some(kick.id)
    ensures var confirmed := Filter(IS_CONFIRMED, Filter(LinkedTo(kick.id), rows));
            && (r in confirmed <==> r in rows && LinkedConfirmed(kick, r))
            && (r in Closes(confirmed) ==> r in rows && ClosesKick(kick.id)(r))
            && (r in Recoveries(confirmed) ==>
                  r in rows && LinkedConfirmed(kick, r) && (r.op.Sweep? || (r.op.Resolve? && r.path == Some(2))))
  {
    hide Filter;
  }

  lemma ClosedReason(kick: Row, rows: seq<Row>, sweeps: seq<Row>, recoveries: seq<Row>, close: Row)
    requires KickUsable(kick) && close.Position().Some?
    requires close in rows && ClosesKick(kick.id)(close)
    requires forall r :: r in sweeps ==>
               r.Position().Some? && r in rows && LinkedConfirmed(kick, r) && r.op.Sweep?
    requires GivenBack(kick.id, rows) == Sum(Amounts(recoveries)) + AMOUNT_OF(close)
    ensures Holds(ClassifyClosed(kick, sweeps, recoveries, close).reason, kick, rows)
  {
    hide Filter, Sum, Map;
  }

  lemma SweepsLinked(kick: Row, rows: seq<Row>)
    ensures forall r :: r in Filter(IS_SWEEP, Filter(IS_CONFIRMED, Filter(LinkedTo(kick.id), rows))) ==>
              r in rows && LinkedConfirmed(kick, r) && r.op.Sweep?
  {
    hide Filter;
  }

  lemma OneCloseTotal(kick: Row, rows: seq<Row>, recoveries: seq<Row>, closes: seq<Row>, close: Row)
    requires closes == [close]
    requires multiset(recoveries + closes) == multiset(Filter(GivesBackTo(kick.id), rows))
    ensures GivenBack(kick.id, rows) == Sum(Amounts(recoveries)) + AMOUNT_OF(close)
  {
    hide Filter, Sum, Map, GivenBack;
    TotalGivenBack(kick, rows, recoveries, close);
  }

  /** The reason given with a verdict is true of the table. */
  lemma ReasonHolds(kick: Row, rows: seq<Row>)
    ensures Holds(ClassifyRound(kick, rows).reason, kick, rows)
  {
    hide Filter, Sum, Map, FirstRowDefect, FirstPathDefect, Recoveries, Closes;
    var linked := Filter(LinkedTo(kick.id), rows);
    var confirmed := Filter(IS_CONFIRMED, linked);
    forall r
      ensures r in linked <==> r in rows && r.link == Some(kick.id)
      ensures r in confirmed <==> r in rows && LinkedConfirmed(kick, r)
      ensures r in Recoveries(confirmed) ==>
                r in rows && LinkedConfirmed(kick, r) && (r.op.Sweep? || (r.op.Resolve? && r.path == Some(2)))
    {
      LinkedRows(kick, rows, r);
    }
    if kick.op.Kick? && kick.status.Confirmed? && KickUsable(kick) && FirstRowDefect(kick, linked).None? {
      forall r | r in confirmed ensures r.Position().Some? && r.minedAt.Some? {
        assert RowDefect(kick, r).None?;
      }
      NoCloses(kick, rows);
      CountFilters(kick, rows);
      SameMembers(Closes(confirmed), Filter(ClosesKick(kick.id), rows));
      if |Closes(confirmed)| == 1 {
        var close := Closes(confirmed)[0];
        assert Closes(confirmed) == [close];
        assert close in Closes(confirmed);
        LinkedRows(kick, rows, close);
        OneCloseTotal(kick, rows, Recoveries(confirmed), Closes(confirmed), close);
        SweepsLinked(kick, rows);
        hide Holds, ClassifyClosed;
        ClosedReason(kick, rows, Filter(IS_SWEEP, confirmed), Recoveries(confirmed), close);
      }
    }
  }
}
