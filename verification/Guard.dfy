/** The bounded no-fill retry guard (tidal/auction_rounds.py). */
module Guard {
  import opened Common
  import opened Rounds
  import opened PairHistory

  // -------------------------------------------------------------- the guard

  datatype Sequence = Sequence(rounds: seq<Evidence>, noFills: nat, terminal: Option<Outcome>)

  /** How many rounds from the front are no-fills. */
  function LeadingNoFills(rounds: seq<Evidence>): (n: nat)
    ensures n <= |rounds|
    ensures forall i :: 0 <= i < n ==> rounds[i].outcome.NoFill?
    ensures n < |rounds| ==> !rounds[n].outcome.NoFill?
  {
    if |rounds| == 0 || !rounds[0].outcome.NoFill? then 0 else 1 + LeadingNoFills(rounds[1..])
  }

  /** The leading no-fills and the first round that is not one. */
  function LatestSequence(rounds: seq<Evidence>): Sequence {
    var n := LeadingNoFills(rounds);
    var shown := if n < |rounds| then rounds[..n + 1] else rounds;
    Sequence(shown, n, if |shown| == 0 then None else Some(shown[|shown| - 1].outcome))
  }

  method ClassifyPairOperations(rows: seq<Row>) returns (s: Sequence)
    ensures s == LatestSequence(CurrentRounds(rows))
  {
    hide CurrentRounds, LeadingNoFills;
    var current := CurrentRounds(rows);
    var shown: seq<Evidence>, noFills: nat, terminal: Option<Outcome> := [], 0, None;
    var i := 0;
    var stopped := false;
    while i < |current| && !stopped
      invariant 0 <= i <= |current| && shown == current[..i]
      invariant terminal == if i == 0 then None else Some(current[i - 1].outcome)
      invariant !stopped ==> noFills == i && forall k :: 0 <= k < i ==> current[k].outcome.NoFill?
      invariant stopped ==> i > 0 && noFills == i - 1 && !current[i - 1].outcome.NoFill?
                            && forall k :: 0 <= k < i - 1 ==> current[k].outcome.NoFill?
      decreases |current| - i
    {
      shown := shown + [current[i]];
      terminal := Some(current[i].outcome);
      if current[i].outcome.NoFill? {
        noFills := noFills + 1;
      } else {
        stopped := true;
      }
      i := i + 1;
    }
    LeadingUnique(current, noFills);
    return Sequence(shown, noFills, terminal);
  }

  lemma LeadingUnique(rounds: seq<Evidence>, n: nat)
    requires n <= |rounds|
    requires forall k :: 0 <= k < n ==> rounds[k].outcome.NoFill?
    requires n < |rounds| ==> !rounds[n].outcome.NoFill?
    ensures LeadingNoFills(rounds) == n
  {
  }

  datatype Action = Allow | Defer | Block
  datatype GuardReason =
    | Initial | ProductiveReset | RetryDue | RetryNotDue | RetryExhausted
    | OutcomeUnknown | RoundIncomplete | ManualRetryOverride

  datatype Decision = Decision(
    action: Action,
    reason: GuardReason,
    noFills: nat,
    retryOrdinal: Option<nat>,
    retryAt: Option<int>)

  const MINUTE: int := 60

  function FirstBarrier(rounds: seq<Evidence>): Option<Evidence> {
    if |rounds| == 0 then None
    else if rounds[0].outcome.Unknown? || rounds[0].outcome.Incomplete? then Some(rounds[0])
    else FirstBarrier(rounds[1..])
  }

  lemma BarrierIsLast(rounds: seq<Evidence>)
    ensures var s := LatestSequence(rounds);
            FirstBarrier(s.rounds) == if s.terminal.Some? && (s.terminal.value.Unknown? || s.terminal.value.Incomplete?)
                                      then Some(s.rounds[|s.rounds| - 1]) else None
  {
    var s := LatestSequence(rounds);
    BarrierAfterNoFills(s.rounds, s.noFills);
  }

  lemma {:induction false} BarrierAfterNoFills(rounds: seq<Evidence>, n: nat)
    requires n <= |rounds| <= n + 1
    requires forall k :: 0 <= k < n ==> rounds[k].outcome.NoFill?
    ensures FirstBarrier(rounds) == if n < |rounds| && (rounds[n].outcome.Unknown? || rounds[n].outcome.Incomplete?)
                                    then Some(rounds[n]) else None
  {
    if n > 0 {
      BarrierAfterNoFills(rounds[1..], n - 1);
    }
  }

  lemma DelayInRange(rounds: seq<Evidence>)
    requires |rounds| > 0 && !rounds[0].outcome.Productive?
    requires FirstBarrier(LatestSequence(rounds).rounds).None?
    ensures LatestSequence(rounds).noFills >= 1 && LatestSequence(rounds).rounds[0].outcome.NoFill?
  {
    BarrierIsLast(rounds);
  }

  /** The guard's verdict on the current rounds. Times are seconds; delays are minutes.
      The delay taken is always one of the list: there is at least one no-fill by then. */
  function Judge(rounds: seq<Evidence>, delays: seq<int>, now: int, allowExhausted: bool): Decision {
    var s := LatestSequence(rounds);
    var barrier := FirstBarrier(s.rounds);
    if |s.rounds| == 0 then Decision(Allow, Initial, s.noFills, None, None)
    else if s.rounds[0].outcome.Productive? then Decision(Allow, ProductiveReset, s.noFills, None, None)
    else if barrier.Some? && barrier.value.outcome.Unknown? then Decision(Block, OutcomeUnknown, s.noFills, None, None)
    else if barrier.Some? then Decision(Block, RoundIncomplete, s.noFills, None, None)
    else if s.noFills > |delays| then
      if allowExhausted then Decision(Allow, ManualRetryOverride, s.noFills, None, None)
      else Decision(Block, RetryExhausted, s.noFills, None, None)
    else if s.rounds[0].closeAt.None? then Decision(Block, OutcomeUnknown, s.noFills, None, None)
    else
      DelayInRange(rounds);
      var retryAt := s.rounds[0].closeAt.value + MINUTE * delays[s.noFills - 1];
      if now >= retryAt then Decision(Allow, RetryDue, s.noFills, Some(s.noFills), Some(retryAt))
      else Decision(Defer, RetryNotDue, s.noFills, Some(s.noFills), Some(retryAt))
  }

  function Decide(rows: seq<Row>, delays: seq<int>, now: int, allowExhausted: bool): Decision {
    Judge(CurrentRounds(rows), delays, now, allowExhausted)
  }

  lemma BarrierFound(rounds: seq<Evidence>)
    requires |rounds| > 0
    ensures var s, n := LatestSequence(rounds), LeadingNoFills(rounds);
            FirstBarrier(s.rounds) == if n < |rounds| && (rounds[n].outcome.Unknown? || rounds[n].outcome.Incomplete?)
                                      then Some(rounds[n]) else None
  {
    hide FirstBarrier, LeadingNoFills;
    var s := LatestSequence(rounds);
    BarrierAfterNoFills(s.rounds, s.noFills);
  }

  lemma SequenceFacts(rounds: seq<Evidence>)
    requires |rounds| > 0
    ensures var s, n := LatestSequence(rounds), LeadingNoFills(rounds);
            && s.noFills == n && |s.rounds| > 0 && s.rounds[0] == rounds[0]
            && (n > 0 ==> rounds[0].outcome.NoFill?) && (n == 0 ==> !rounds[0].outcome.NoFill?)
            && (FirstBarrier(s.rounds).Some? <==>
                n < |rounds| && (rounds[n].outcome.Unknown? || rounds[n].outcome.Incomplete?))
  {
    hide FirstBarrier, LeadingNoFills;
    BarrierFound(rounds);
  }

  /** Without the override, the guard allows a kick exactly when every round back to the
      first productive one (or the baseline) is a no-fill, the budget covers them, and the
      latest close's delay has passed. */
  lemma AllowsIff(rounds: seq<Evidence>, delays: seq<int>, now: int)
    ensures var n := LeadingNoFills(rounds);
            Judge(rounds, delays, now, false).action.Allow? <==>
              && (n < |rounds| ==> rounds[n].outcome.Productive?)
              && (n > 0 ==> n <= |delays| && rounds[0].closeAt.Some?
                            && now >= rounds[0].closeAt.value + 60 * delays[n - 1])
  {
    if |rounds| == 0 {
      AllowsFirst(rounds, delays, now);
    }
    hide *;
    if |rounds| > 0 {
      AllowsNonEmpty(rounds, LeadingNoFills(rounds), delays, now);
    }
  }

  lemma AllowsFirst(rounds: seq<Evidence>, delays: seq<int>, now: int)
    requires |rounds| == 0
    ensures Judge(rounds, delays, now, false).action.Allow?
  {
  }

  lemma AllowsNonEmpty(rounds: seq<Evidence>, n: nat, delays: seq<int>, now: int)
    requires |rounds| > 0 && n == LeadingNoFills(rounds)
    ensures Judge(rounds, delays, now, false).action.Allow? <==>
              && (n < |rounds| ==> rounds[n].outcome.Productive?)
              && (n > 0 ==> n <= |delays| && rounds[0].closeAt.Some?
                            && now >= rounds[0].closeAt.value + 60 * delays[n - 1])
  {
    hide FirstBarrier, LeadingNoFills, LatestSequence;
    SequenceFacts(rounds);
    var s := LatestSequence(rounds);
    if FirstBarrier(s.rounds).Some? {
      assert !rounds[n].outcome.Productive?;
    } else if n == 0 {
      assert rounds[0].outcome.Productive?;
    }
  }

  /** When the delay is still running: the leading no-fills lead back to a productive round
      or to nothing, the budget covers them, and the newest close is not yet as many minutes
      ago as the delay of their number. The retry time is that moment, in seconds. */
  ghost predicate Waits(rounds: seq<Evidence>, delays: seq<int>, now: int, n: nat) {
    && 0 < n <= |rounds| && n <= |delays|
    && (forall i :: 0 <= i < n ==> rounds[i].outcome == NoFill)
    && (n < |rounds| ==> rounds[n].outcome == Productive)
    && rounds[0].closeAt.Some? && now < rounds[0].closeAt.value + 60 * delays[n - 1]
  }

  /** The guard's answers over rounds of which the first `n` are the leading no-fills. It
      defers exactly while a delay runs, and says until when; it blocks as unknown exactly if
      the first round that is not a no-fill is, or the newest close's time is missing; as
      incomplete exactly if that round is; as exhausted exactly if the no-fills outnumber the
      delays; and in no other case. */
  ghost predicate Answers(d: Decision, rounds: seq<Evidence>, n: nat, delays: seq<int>, now: int)
    requires n <= |rounds|
  {
    && d.noFills == n
    && (d.action.Defer? <==> Waits(rounds, delays, now, n))
    && (d.action.Defer? ==>
          && d.reason.RetryNotDue? && d.retryOrdinal == Some(n)
          && d.retryAt == Some(rounds[0].closeAt.value + 60 * delays[n - 1]))
    && (d.action.Block? <==> d.reason.RoundIncomplete? || d.reason.RetryExhausted? || d.reason.OutcomeUnknown?)
    && (d.reason.RoundIncomplete? <==> n < |rounds| && rounds[n].outcome == Incomplete)
    && (d.reason.RetryExhausted? <==> n > |delays| && (n < |rounds| ==> rounds[n].outcome == Productive))
    && (d.reason.OutcomeUnknown? <==>
          || (n < |rounds| && rounds[n].outcome == Unknown)
          || (0 < n <= |delays| && (n < |rounds| ==> rounds[n].outcome == Productive) && rounds[0].closeAt.None?))
    && (d.reason.Initial? <==> |rounds| == 0)
    && (d.reason.ProductiveReset? <==> |rounds| > 0 && rounds[0].outcome == Productive)
    && !d.reason.ManualRetryOverride?
  }

  lemma AnswersIff(rounds: seq<Evidence>, delays: seq<int>, now: int)
    ensures Answers(Judge(rounds, delays, now, false), rounds, LeadingNoFills(rounds), delays, now)
  {
    if |rounds| > 0 {
      AnswersNonEmpty(rounds, delays, now);
    }
  }

  lemma AnswersNonEmpty(rounds: seq<Evidence>, delays: seq<int>, now: int)
    requires |rounds| > 0
    ensures Answers(Judge(rounds, delays, now, false), rounds, LeadingNoFills(rounds), delays, now)
  {
    hide FirstBarrier, LeadingNoFills, LatestSequence;
    SequenceFacts(rounds);
    BarrierFound(rounds);
  }

  /** For fixed rows a deferral names the moment it turns into an allowance, and from that
      moment on, and not before, the guard allows. */
  lemma DeferUntilRetryAt(rows: seq<Row>, delays: seq<int>, now: int, later: int)
    requires Decide(rows, delays, now, false).action.Defer?
    ensures var d := Decide(rows, delays, now, false);
            && d.retryAt.Some? && now < d.retryAt.value
            && (Decide(rows, delays, later, false).action.Allow? <==> later >= d.retryAt.value)
            && (later < d.retryAt.value ==> Decide(rows, delays, later, false) == d)
  {
    hide CurrentRounds;
  }

  /** The override lifts exactly an exhausted budget, never ambiguity or an open round. */
  lemma OverrideOnlyExhaustion(rows: seq<Row>, delays: seq<int>, now: int)
    ensures var d, o := Decide(rows, delays, now, false), Decide(rows, delays, now, true);
            if d.reason.RetryExhausted?
            then o.action.Allow? && o.reason.ManualRetryOverride? && o.noFills == d.noFills > |delays|
            else o == d
  {
    hide CurrentRounds;
  }

  /** A close that names no round and comes after the newest kick: a settlement or a resolve,
      confirmed on chain behind the kick, or still in flight and created after it. */
  predicate LooseClose(kick: Row, r: Row) {
    && r.link.None?
    && if r.status == Confirmed then
         && (r.op == Settled || (r.op == Resolve && r.path.Some? && r.path.value in {1, 3, 4, 5}))
         && r.Position().Some? && kick.Position().Some? && kick.Position().value.Before(r.Position().value)
       else
         && r.status == Submitted && (r.op == Settled || r.op == Resolve)
         && r.Position().None? && r.createdAt.Some? && kick.createdAt.Some?
         && kick.createdAt.value < r.createdAt.value
  }

  /** Such a close shuts the guard, override or not, until the newest round is reviewed. */
  lemma LooseCloseBlocks(rows: seq<Row>, r: Row, delays: seq<int>, now: int, allowExhausted: bool)
    requires var kicks := KicksNewestFirst(rows);
             |kicks| > 0 && r in rows && LooseClose(kicks[0], r)
             && (forall x :: x in rows && x.baseline ==> x.id != kicks[0].id)
    ensures var d := Decide(rows, delays, now, allowExhausted); d.action.Block? && d.reason.OutcomeUnknown?
  {
    hide KicksNewestFirst, Decide;
    var kicks := KicksNewestFirst(rows);
    assert StrayClose(r) && InWindow(kicks[0], None, r);
    StrayCloseBlocks(rows, delays, now, allowExhausted);
  }

  /** An unlinked close in the newest round's window shuts the guard, override or not, until
      the round is reviewed. */
  lemma StrayCloseBlocks(rows: seq<Row>, delays: seq<int>, now: int, allowExhausted: bool)
    requires var kicks := KicksNewestFirst(rows);
             |kicks| > 0 && !Baselined(rows, kicks[0].id) && HasStrayClose(rows, kicks[0], None)
    ensures var d := Decide(rows, delays, now, allowExhausted); d.action.Block? && d.reason.OutcomeUnknown?
  {
    hide KicksNewestFirst, HasStrayClose, ClassifyRound, Baselined;
    var kicks, current := KicksNewestFirst(rows), CurrentRounds(rows);
    assert NewerThan(kicks, 0) == None;
    assert AllRounds(rows)[0] == RoundOf(rows, kicks[0], None);
    assert |current| > 0 && current[0].outcome.Unknown?;
    hide CurrentRounds;
    BarrierIsLast(current);
    assert LatestSequence(current).rounds[0] == current[0];
  }
}
