/** Clearing a no-fill suspension resets a pair's retry history (tidal/auction_rounds.py). */
module SuspensionClear {
  import opened Common
  import opened Rounds
  import opened PairHistory
  import opened Guard
  import opened Baselines

  // -------------------------------------------------- clearing a suspension

  /** The rows with one kick marked as a reviewed baseline. */
  function MarkBaseline(rows: seq<Row>, kickId: int): (s: seq<Row>)
    ensures |s| == |rows|
    ensures Alike(s, rows)
  {
    seq(|rows|, i requires 0 <= i < |rows| => if rows[i].id == kickId then rows[i].(baseline := true) else rows[i])
  }

  lemma MarkedBaselined(rows: seq<Row>, kickId: int, k: int)
    requires exists r :: r in rows && r.op.Kick? && r.id == kickId
    ensures Baselined(MarkBaseline(rows, kickId), k) <==> Baselined(rows, k) || k == kickId
  {
    var s := MarkBaseline(rows, kickId);
    if Baselined(rows, k) {
      var r :| r in rows && r.op.Kick? && r.baseline && r.id == k;
      MarkedRow(rows, kickId, r);
    }
    if Baselined(s, k) {
      var r :| r in s && r.op.Kick? && r.baseline && r.id == k;
      var i :| 0 <= i < |s| && s[i] == r;
      assert rows[i] in rows;
    }
    var r :| r in rows && r.op.Kick? && r.id == kickId;
    MarkedRow(rows, kickId, r);
  }

  lemma MarkedRow(rows: seq<Row>, kickId: int, r: Row)
    requires r in rows
    ensures (if r.id == kickId then r.(baseline := true) else r) in MarkBaseline(rows, kickId)
  {
    var i :| 0 <= i < |rows| && rows[i] == r;
    assert MarkBaseline(rows, kickId)[i] == if r.id == kickId then r.(baseline := true) else r;
  }

  /** A plan picks the newest no-fill, and everything newer is open. */
  lemma {:induction false} PlanShape(rounds: seq<Evidence>, newer: seq<int>)
    requires PlanFrom(rounds, newer).Ok?
    ensures var p := PlanFrom(rounds, newer).value; var j := |p.newerKickIds| - |newer|;
            && 0 <= j < |rounds| && rounds[j].outcome.NoFill? && rounds[j].kickId == p.baselineKickId
            && (forall i :: 0 <= i < j ==> rounds[i].outcome.Incomplete?)
            && newer <= p.newerKickIds
            && (forall i :: 0 <= i < j ==> p.newerKickIds[|newer| + i] == rounds[i].kickId)
    decreases |rounds|
  {
    if rounds[0].outcome.Incomplete? {
      PlanShape(rounds[1..], newer + [rounds[0].kickId]);
      var p := PlanFrom(rounds, newer).value;
      forall i | 0 <= i < |p.newerKickIds| - |newer| ensures p.newerKickIds[|newer| + i] == rounds[i].kickId {
        if i > 0 {
          assert rounds[i] == rounds[1..][i - 1];
        }
      }
    }
  }

  /** What the guard and the planner make of a history of open rounds. */
  lemma {:induction false} OpenHistory(rounds: seq<Evidence>, newer: seq<int>, delays: seq<int>, now: int)
    requires forall i :: 0 <= i < |rounds| ==> rounds[i].outcome.Incomplete?
    ensures PlanFrom(rounds, newer) == Err(NothingCompleted)
    ensures LatestSequence(rounds).noFills == 0
    ensures Judge(rounds, delays, now, false) ==
            if rounds == [] then Decision(Allow, Initial, 0, None, None)
            else Decision(Block, RoundIncomplete, 0, None, None)
    decreases |rounds|
  {
    if |rounds| > 0 {
      OpenHistory(rounds[1..], newer + [rounds[0].kickId], delays, now);
      BarrierIsLast(rounds);
    }
  }

  lemma {:induction false} CutAt(rows: seq<Row>, rounds: seq<Evidence>, j: nat)
    requires j < |rounds| && Baselined(rows, rounds[j].kickId)
    requires forall i :: 0 <= i < j ==> !Baselined(rows, rounds[i].kickId)
    ensures BeforeBaseline(rows, rounds) == rounds[..j]
  {
    if j > 0 {
      CutAt(rows, rounds[1..], j - 1);
      assert rounds[..j] == [rounds[0]] + rounds[1..][..j - 1];
    }
  }

  /** The pair after its retry history was reset: no round is classified differently, the
      listed newer open rounds are the whole current history, the no-fill count is zero,
      the guard allows again exactly if there are none, and nothing is left to clear. */
  ghost predicate IsReset(rows: seq<Row>, cleared: seq<Row>, newer: seq<int>, delays: seq<int>, now: int) {
    var current := CurrentRounds(cleared);
    && AllRounds(cleared) == AllRounds(rows)
    && |current| == |newer|
    && (forall i :: 0 <= i < |newer| ==> current[i].kickId == newer[i] && current[i].outcome.Incomplete?)
    && LatestSequence(current).noFills == 0
    && Decide(cleared, delays, now, false) ==
       (if newer == [] then Decision(Allow, Initial, 0, None, None)
         else Decision(Block, RoundIncomplete, 0, None, None))
    && PlanClear(cleared) == Err(NothingCompleted)
  }

  /** Applying a plan resets the pair. */
  lemma ClearingSuspension(rows: seq<Row>, plan: ClearPlan, delays: seq<int>, now: int)
    requires UniqueIds(rows) && PlanClear(rows) == Ok(plan)
    ensures IsReset(rows, MarkBaseline(rows, plan.baselineKickId), plan.newerKickIds, delays, now)
  {
    hide AllRounds, Judge, PlanFrom, CurrentRounds, MarkBaseline, LatestSequence, Alike;
    var cleared := MarkBaseline(rows, plan.baselineKickId);
    var rounds, j := AllRounds(rows), |plan.newerKickIds|;
    AllRoundsAlike(cleared, rows);
    PlanShape(CurrentRounds(rows), []);
    CurrentIsPrefix(rows);
    CutAtPlan(rows, j);
    assert forall i :: 0 <= i < j ==> rounds[..j][i] == CurrentRounds(rows)[i];
    OpenHistory(rounds[..j], [], delays, now);
  }

  /** Marking the round at position `j` of the current history makes what is newer than it
      the whole current history. */
  lemma CutAtPlan(rows: seq<Row>, j: nat)
    requires UniqueIds(rows) && j < |CurrentRounds(rows)|
    ensures CurrentRounds(MarkBaseline(rows, AllRounds(rows)[j].kickId)) == AllRounds(rows)[..j]
  {
    var rounds, kicks := AllRounds(rows), KicksNewestFirst(rows);
    var cleared := MarkBaseline(rows, rounds[j].kickId);
    KicksUnique(rows);
    KickMembers(rows);
    RoundIds(rows);
    AllRoundsAlike(cleared, rows);
    hide AllRounds, KicksNewestFirst, Baselined, MarkBaseline;
    assert kicks[j] in kicks;
    forall i | 0 <= i <= j
      ensures Baselined(cleared, rounds[i].kickId) <==> i == j
    {
      MarkedBaselined(rows, rounds[j].kickId, rounds[i].kickId);
      assert CurrentRounds(rows)[i] == rounds[i];
      assert CurrentRounds(rows)[i] in CurrentRounds(rows);
      assert i < j ==> kicks[i].id != kicks[j].id;
    }
    CutAt(cleared, rounds, j);
  }
}
