/** Whole runs of one auction/token pair under the no-fill guard: kicks submitted only when
    the guard allows them, receipts and settlements applied and replayed as they come, links
    rebuilt, suspensions cleared (tidal/auction_rounds.py with
    tidal/operation_reconciler.py). */
module GuardRuns {
  import opened Common
  import opened Rounds
  import opened PairHistory
  import opened Guard
  import opened Baselines
  import opened SuspensionClear
  import opened KickTable
  import opened RoundLinks
  import opened Receipts
  import opened ReceiptLaws
  import opened FrozenRounds
  import opened ChainLinks

  // ---------------------------------------------------------------- the runs

  /** The rows of one pair and the next free id. */
  datatype State = State(rows: seq<Row>, nextId: int)

  /** One pair, the guard's retry delays, and what the chain says of each transaction. */
  datatype Setting = Setting(
    auction: string,
    token: string,
    delays: seq<int>,
    chain: string -> Mining,
    events: string -> Decoded)

  function TheReceipt(g: Setting, tx: string): Receipt {
    ReceiptOf(tx, g.chain(tx))
  }

  function ItemOf(g: Setting, e: (string, SettlementEvent)): CloseItem {
    CloseItem(TheReceipt(g, e.0), g.events(e.0), e.1)
  }

  function Items(g: Setting, found: seq<(string, SettlementEvent)>): (items: seq<CloseItem>)
    ensures |items| == |found|
    ensures forall i :: 0 <= i < |items| ==> items[i] == ItemOf(g, found[i])
  {
    seq(|found|, i requires 0 <= i < |found| => ItemOf(g, found[i]))
  }

  /** A transaction's receipt may be received any number of times, for any of its rows, and
      each time its events can be decoded or not; discovery may meet any settlement events; the links may be
      rebuilt at any time. */
  datatype Step =
    | SubmitKick(kick: Row, now: int)
    | SubmitRecovery(recovery: Row)
    | Receive(tx: string, decodes: bool, accept: int -> bool)
    | Discover(found: seq<(string, SettlementEvent)>)
    | Relink(rebuilt: seq<Row>)
    | ClearSuspension

  /** A row as it is written before its transaction is mined. */
  predicate FreshRow(g: Setting, r: Row) {
    r.auction == g.auction && r.token == g.token && r.status.Submitted? && r.path.None? && r.amount.None? && !r.baseline
  }

  /** No live kick was created after this time. */
  ghost predicate NotBefore(rows: seq<Row>, at: int) {
    forall r :: r in rows && ActiveKick(r) && r.createdAt.Some? ==> r.createdAt.value <= at
  }

  /** What each step asks for. A kick needs the guard's unforced leave and a clock that has
      not gone back; a recovery names the round the lookup finds, or none. */
  ghost predicate Enabled(g: Setting, s: State, step: Step) {
    match step
    case SubmitKick(kick, now) =>
      && FreshRow(g, kick) && kick.op.Kick? && kick.link.None?
      && kick.createdAt.Some? && NotBefore(s.rows, kick.createdAt.value)
      && Decide(s.rows, g.delays, now, false).action.Allow?
    case SubmitRecovery(recovery) =>
      && FreshRow(g, recovery) && (recovery.op.Resolve? || recovery.op.Sweep?)
      && var kick := LatestUnclosedKick(s.rows, g.auction, g.token, None);
         recovery.link.None? || (kick.Some? && recovery.link == Some(kick.value.id))
    case Receive(_, _, _) => true
    case Discover(found) => forall e :: e in found ==> g.chain(e.0).ok
    case Relink(rebuilt) => Relinked(s.rows, rebuilt, g.auction, g.token)
    case ClearSuspension => PlanClear(s.rows).Ok?
  }

  /** The rows after a step, appended rows under fresh ids. */
  function After(g: Setting, s: State, step: Step): seq<Row> {
    match step
    case SubmitKick(kick, _) => s.rows + [kick.(id := s.nextId)]
    case SubmitRecovery(recovery) => s.rows + [recovery.(id := s.nextId)]
    case Receive(tx, decodes, accept) =>
      ApplyReceipt(s.rows, s.nextId, TheReceipt(g, tx), if decodes then Some(g.events(tx)) else None, accept)
    case Discover(found) => SettleAll(s.rows, s.nextId, Items(g, found))
    case Relink(rebuilt) => rebuilt
    case ClearSuspension =>
      if PlanClear(s.rows).Ok? then MarkBaseline(s.rows, PlanClear(s.rows).value.baselineKickId) else s.rows
  }

  function Next(g: Setting, s: State, step: Step): State {
    var rows := After(g, s, step);
    State(rows, s.nextId + |rows| - |s.rows|)
  }

  function Run(g: Setting, s: State, steps: seq<Step>): State {
    if |steps| == 0 then s else Next(g, Run(g, s, steps[..|steps| - 1]), steps[|steps| - 1])
  }

  ghost predicate Legal(g: Setting, s: State, steps: seq<Step>) {
    |steps| > 0 ==>
      && Legal(g, s, steps[..|steps| - 1])
      && Enabled(g, Run(g, s, steps[..|steps| - 1]), steps[|steps| - 1])
  }

  // --------------------------------------------------------------- invariant

  /** The row carries the evidence its receipt gives. */
  ghost predicate Decoded1(g: Setting, r: Row) {
    r.tx.Some? && Final(TheReceipt(g, r.tx.value), g.events(r.tx.value), r)
  }

  /** Confirmed and placed, its evidence still to come. */
  ghost predicate Undecoded(g: Setting, r: Row) {
    && r.tx.Some? && Receipts.Mined(r, TheReceipt(g, r.tx.value), Confirmed) == r
    && r.path.None? && r.amount.None? && !r.op.Settled?
  }

  /** What a row records of its transaction agrees with the chain. */
  ghost predicate Stamped(g: Setting, r: Row) {
    match r.status
    case Submitted => r.path.None? && r.amount.None? && !r.op.Settled?
    case Confirmed => r.tx.Some? && g.chain(r.tx.value).ok && (Decoded1(g, r) || Undecoded(g, r))
    case OtherStatus =>
      r.tx.Some? && !g.chain(r.tx.value).ok && Receipts.Mined(r, TheReceipt(g, r.tx.value), OtherStatus) == r
  }

  ghost predicate OwnRow(g: Setting, nextId: int, r: Row) {
    && OfPair(r, g.auction, g.token) && r.id < nextId && Stamped(g, r)
    && (r.link.Some? ==> r.link.value < nextId) && (r.op.Kick? ==> r.link.None?)
  }

  ghost predicate Tidy(g: Setting, s: State) {
    Ascending(s.rows) && forall r :: r in s.rows ==> OwnRow(g, s.nextId, r)
  }

  ghost predicate Inv(g: Setting, s: State) {
    && Tidy(g, s)
    && SettledBelow(s.rows, KicksNewestFirst(s.rows))
    && Bounded(s.rows, KicksNewestFirst(s.rows), |g.delays|)
  }

  /** At most one round of the pair is open, and it is the newest. */
  lemma AtMostOneOpen(g: Setting, s: State, a: Row, b: Row)
    requires Inv(g, s) && a in s.rows && b in s.rows && Open(s.rows, a) && Open(s.rows, b)
    ensures a == b && |KicksNewestFirst(s.rows)| > 0 && KicksNewestFirst(s.rows)[0] == a
  {
    hide KicksNewestFirst, HasClose, InFlight, Bounded, Tidy;
    KickMembers(s.rows);
    var kicks := KicksNewestFirst(s.rows);
    var i :| 0 <= i < |kicks| && kicks[i] == a;
    var j :| 0 <= j < |kicks| && kicks[j] == b;
  }

  /** The guard never counts more no-fills than its retries plus one. */
  lemma NoFillsBounded(g: Setting, s: State)
    requires Inv(g, s)
    ensures LatestSequence(CurrentRounds(s.rows)).noFills <= |g.delays| + 1
  {
    var kicks, current := KicksNewestFirst(s.rows), CurrentRounds(s.rows);
    CurrentKicks(s.rows);
    hide KicksNewestFirst, CurrentRounds, ClassifyRound, AllRounds, SettledBelow, LeadingNoFills;
    forall i | 0 <= i < |current| && current[i].outcome.NoFill?
      ensures ClassifyRound(kicks[i], s.rows).outcome.NoFill?
    {
      RoundOutcome(s.rows, i);
    }
    CountWithinStreak(s.rows, kicks, current);
    if |kicks| > 0 {
      assert Streak(s.rows, kicks[1..]) <= |g.delays|;
    }
  }
  /** When the guard allows a kick, the newest round is frozen and the streak is within the
      retries. */
  lemma AllowedMeans(g: Setting, s: State, now: int)
    requires Inv(g, s) && Decide(s.rows, g.delays, now, false).action.Allow?
    ensures var kicks := KicksNewestFirst(s.rows);
            && Streak(s.rows, kicks) <= |g.delays|
            && (|kicks| > 0 ==> Frozen(s.rows, kicks[0]))
  {
    var kicks, n := KicksNewestFirst(s.rows), LeadingNoFills(CurrentRounds(s.rows));
    hide KicksNewestFirst, CurrentRounds, ClassifyRound, Bounded, Frozen, Decide, LeadingNoFills;
    AllowedCount(g.delays, s.rows, now);
    StreakWithinCount(s.rows, kicks, n);
    assert |kicks| > 0 ==> kicks[0] in kicks;
  }

  // ------------------------------------------------------------ the steps

  lemma TidyPair(g: Setting, s: State)
    requires Tidy(g, s)
    ensures Ascending(s.rows)
    ensures forall r :: r in s.rows ==> OfPair(r, g.auction, g.token) && r.id < s.nextId
  {
    hide OfPair, Stamped;
  }

  lemma TidyUpdate(g: Setting, s: State, was: Row, row: Row) returns (i: nat)
    requires Tidy(g, s) && was in s.rows && row.id == was.id && OwnRow(g, s.nextId, row)
    ensures i < |s.rows| && s.rows[i] == was && SetRow(s.rows, row) == s.rows[i := row]
    ensures Tidy(g, State(SetRow(s.rows, row), s.nextId))
  {
    hide OwnRow;
    i :| 0 <= i < |s.rows| && s.rows[i] == was;
    SetIsUpdate(s.rows, i, row);
    MinedKeepsOrder(s.rows, row);
  }

  /** A submitted row gets its receipt, or an unlinked recovery a round. */
  lemma UpdateKeeps(g: Setting, s: State, was: Row, row: Row)
    requires Inv(g, s) && was in s.rows && OwnRow(g, s.nextId, row) && SameIdentity(row, was)
    requires was.status.Submitted? || (!was.op.Kick? && was.link.None?)
    requires row.link == was.link || Attachable(s.rows, row.link)
    ensures Inv(g, State(SetRow(s.rows, row), s.nextId))
  {
    hide SettledBelow, Bounded, KicksNewestFirst, KicksMoved, FrozenKept, Attachable, OwnRow;
    var i := TidyUpdate(g, s, was, row);
    TidyPair(g, s);
    hide Tidy;
    UpdateFreezes(s.rows, i, row);
    if was.status.Submitted? {
      ThawedUpdateKicks(s.rows, i, row);
    } else {
      OtherRowKicks(s.rows, i, row);
      SameKicks(KicksNewestFirst(s.rows));
    }
    MovedKeeps(s.rows, s.rows[i := row], KicksNewestFirst(s.rows), KicksNewestFirst(s.rows[i := row]), |g.delays|);
  }

  lemma SameKicks(kicks: seq<Row>)
    ensures KicksMoved(kicks, kicks)
  {
  }

  lemma TidyAppend(g: Setting, s: State, row: Row)
    requires Tidy(g, s) && OwnRow(g, s.nextId + 1, row) && row.id == s.nextId
    ensures Tidy(g, State(s.rows + [row], s.nextId + 1))
  {
    forall r | r in s.rows ensures OwnRow(g, s.nextId + 1, r) && r.id < row.id {
      OwnLater(g, s.nextId, r);
    }
    hide OwnRow;
  }

  lemma OwnLater(g: Setting, nextId: int, r: Row)
    requires OwnRow(g, nextId, r)
    ensures OwnRow(g, nextId + 1, r) && r.id < nextId
  {
  }

  /** A recovery or settlement row is added. */
  lemma AppendKeeps(g: Setting, s: State, row: Row)
    requires Inv(g, s) && OwnRow(g, s.nextId + 1, row) && !row.op.Kick? && row.id == s.nextId
    requires Attachable(s.rows, row.link)
    ensures Inv(g, State(s.rows + [row], s.nextId + 1))
  {
    hide SettledBelow, Bounded, KicksNewestFirst, FrozenKept, Attachable, Tidy, OwnRow;
    AppendFreezes(s.rows, row);
    KicksAppend(s.rows, row);
    TidyAppend(g, s, row);
    SameKicks(KicksNewestFirst(s.rows));
    MovedKeeps(s.rows, s.rows + [row], KicksNewestFirst(s.rows), KicksNewestFirst(s.rows + [row]), |g.delays|);
  }

  lemma YoungestKick(g: Setting, s: State, kick: Row)
    requires Tidy(g, s) && kick.createdAt.Some? && NotBefore(s.rows, kick.createdAt.value) && kick.id == s.nextId
    ensures forall r :: r in s.rows && ActiveKick(r) ==> Older(r, kick)
  {
    TidyPair(g, s);
    hide OfPair, ActiveKick, Ascending, Tidy;
  }

  lemma FreshIsOwn(g: Setting, nextId: int, r: Row)
    requires FreshRow(g, r) && (r.op.Kick? || r.op.Resolve? || r.op.Sweep?)
    requires (r.link.Some? ==> r.link.value < nextId) && (r.op.Kick? ==> r.link.None?)
    ensures OwnRow(g, nextId + 1, r.(id := nextId))
  {
  }

  /** A kick the guard allowed is added. */
  lemma KickKeeps(g: Setting, s: State, kick: Row, now: int)
    requires Inv(g, s) && Enabled(g, s, SubmitKick(kick, now))
    ensures Inv(g, Next(g, s, SubmitKick(kick, now)))
  {
    hide SettledBelow, Bounded, KicksNewestFirst, Decide, Tidy, NotBefore, Older, OwnRow;
    var row := kick.(id := s.nextId);
    FreshIsOwn(g, s.nextId, kick);
    TidyAppend(g, s, row);
    YoungestKick(g, s, row);
    KickAllowed(g, s, row, now);
  }
  lemma KickAllowed(g: Setting, s: State, row: Row, now: int)
    requires Inv(g, s) && Decide(s.rows, g.delays, now, false).action.Allow?
    requires ActiveKick(row) && row.link.None? && !row.baseline
    requires forall r :: r in s.rows && ActiveKick(r) ==> Older(r, row)
    ensures var after := s.rows + [row];
            SettledBelow(after, KicksNewestFirst(after)) && Bounded(after, KicksNewestFirst(after), |g.delays|)
  {
    AllowedMeans(g, s, now);
    hide SettledBelow, Bounded, KicksNewestFirst, FrozenKept, Decide, Streak, Frozen, Attachable, Tidy, Older,
         InsertNewestFirst;
    NoLinkAttaches(s.rows);
    AppendFreezes(s.rows, row);
    KicksAppend(s.rows, row);
    InsertInFront(s.rows, row);
    NewHeadKeeps(s.rows, s.rows + [row], KicksNewestFirst(s.rows), row, |g.delays|);
  }

  lemma LookupAttachable(g: Setting, s: State, before: Option<Pos>)
    requires Tidy(g, s)
    ensures var k := LatestUnclosedKick(s.rows, g.auction, g.token, before);
            k.Some? ==> Attachable(s.rows, Some(k.value.id)) && k.value.id < s.nextId
  {
    hide LatestUnclosedKick, Stamped;
    var k := LatestUnclosedKick(s.rows, g.auction, g.token, before);
    if k.Some? {
      forall r | r in s.rows && r.link == Some(k.value.id) ensures !(r.status.Confirmed? && r.ClosesRound()) {
        assert OfPair(r, g.auction, g.token);
      }
    }
  }

  lemma FinalizedOwn(g: Setting, s: State, tx: string, was: Row)
    requires Tidy(g, s) && was in s.rows && was.tx == Some(tx) && g.chain(tx).ok
    ensures var row := Finalized(s.rows, TheReceipt(g, tx), g.events(tx), was);
            && OwnRow(g, s.nextId, row) && SameIdentity(row, was) && row.status.Confirmed?
            && (row.link == was.link || Attachable(s.rows, row.link))
  {
    hide LatestUnclosedKick, Stamp, FirstResolve, FirstSweep, Attachable, Final;
    var receipt, d := TheReceipt(g, tx), g.events(tx);
    FinalizedKeepsId(s.rows, receipt, d, was);
    FinalizedIsFinal(s.rows, receipt, d, was);
    LookupAttachable(g, s, Some(receipt.pos));
    NoLinkAttaches(s.rows);
    assert was.auction == g.auction && was.token == g.token;
  }

  /** Finalizing a row again changes at most its missing link. */
  lemma ReplayRow(g: Setting, s: State, tx: string, was: Row)
    requires Tidy(g, s) && was in s.rows && was.tx == Some(tx) && was.status.Confirmed? && Decoded1(g, was)
    ensures var row := Finalized(s.rows, TheReceipt(g, tx), g.events(tx), was);
            row == was || (!was.op.Kick? && was.link.None?)
  {
    hide LatestUnclosedKick, Stamp, FirstResolve, FirstSweep;
    assert OwnRow(g, s.nextId, was);
  }

  /** A row whose evidence comes late. */
  ghost predicate Late(g: Setting, r: Row) {
    r.status.Confirmed? && !Decoded1(g, r)
  }

  lemma FinalizeKeeps(g: Setting, s: State, tx: string, was: Row)
    requires Inv(g, s) && was in s.rows && was.tx == Some(tx) && g.chain(tx).ok && !Late(g, was)
    ensures Inv(g, State(SetRow(s.rows, Finalized(s.rows, TheReceipt(g, tx), g.events(tx), was)), s.nextId))
  {
    hide SettledBelow, Bounded, KicksNewestFirst, Finalized, SetRow, Attachable, Decoded1;
    assert OwnRow(g, s.nextId, was);
    FinalizedOwn(g, s, tx, was);
    var row := Finalized(s.rows, TheReceipt(g, tx), g.events(tx), was);
    if was.status.Confirmed? {
      ReplayRow(g, s, tx, was);
      if row == was {
        TidyPair(g, s);
        SetPresent(s.rows, row, was);
      }
    }
    hide Tidy, OwnRow;
    if row != was {
      UpdateKeeps(g, s, was, row);
    }
  }

  // ------------------------------------------------------------ late evidence

  /** The invariant without the bound: late evidence can break only the bound. */
  ghost predicate Calm(g: Setting, s: State) {
    Tidy(g, s) && SettledBelow(s.rows, KicksNewestFirst(s.rows))
  }

  ghost predicate StillFrozen(rows: seq<Row>, after: seq<Row>) {
    forall k :: Frozen(rows, k) ==> Frozen(after, k)
  }

  /** What happened to the kicks and, unless something was late, to settled evidence. */
  ghost predicate Passed(rows: seq<Row>, after: seq<Row>, late: bool) {
    && TailMoved(KicksNewestFirst(rows), KicksNewestFirst(after))
    && StillFrozen(rows, after) && (!late ==> FrozenKept(rows, after))
  }

  lemma PassesCompose(a: seq<Row>, b: seq<Row>, c: seq<Row>, late: bool, later: bool)
    requires Passed(a, b, late) && Passed(b, c, later)
    ensures Passed(a, c, late || later)
  {
    hide KicksNewestFirst, ClassifyRound, Frozen;
    TailsCompose(KicksNewestFirst(a), KicksNewestFirst(b), KicksNewestFirst(c));
  }

  lemma NoPass(rows: seq<Row>)
    ensures Passed(rows, rows, false)
  {
    SameTail(KicksNewestFirst(rows));
    hide KicksNewestFirst, ClassifyRound;
  }

  lemma PassedLate(rows: seq<Row>, after: seq<Row>, late: bool)
    requires Passed(rows, after, false)
    ensures Passed(rows, after, late)
  {
  }

  /** Settled rounds stay frozen when a row that did not close anything is confirmed, its
      link kept, dropped or put on an unclosed round. */
  lemma LateFrozen(rows: seq<Row>, i: nat, row: Row, k: Row)
    requires i < |rows| && rows[i].status.Confirmed? && !rows[i].ClosesRound() && row.status.Confirmed?
    requires Frozen(rows, k)
    ensures Frozen(rows[i := row], k)
  {
    var after := rows[i := row];
    var c :| c in rows && c.link == Some(k.id) && c.status.Confirmed? && c.ClosesRound();
    var j :| 0 <= j < |rows| && rows[j] == c;
    assert after[j] == c;
    forall r | r in after && r.link == Some(k.id) ensures !r.status.Submitted? {
      var n :| 0 <= n < |after| && after[n] == r;
      assert n != i ==> rows[n] == r && r in rows;
    }
  }

  lemma MovedSettled(rows: seq<Row>, after: seq<Row>, kicks: seq<Row>, moved: seq<Row>)
    requires SettledBelow(rows, kicks) && KicksMoved(kicks, moved) && StillFrozen(rows, after)
    ensures SettledBelow(after, moved)
  {
    hide Frozen;
    var d := |kicks| - |moved|;
    forall i | 0 < i < |moved| ensures moved[i] == kicks[i + d] {
      assert moved[1..][i - 1] == moved[i];
      assert d == 0 ==> kicks[1..][i - 1] == kicks[i];
    }
    forall k | k in moved && k.baseline ensures Frozen(after, k) {
      var i :| 0 <= i < |moved| && moved[i] == k;
      assert d == 1 ==> moved[i] == kicks[i + 1] && kicks[i + 1] in kicks;
      assert d == 0 && i > 0 ==> kicks[i] in kicks;
    }
  }

  /** One row of a pass, whether its evidence comes in time or late. */
  lemma CalmUpdate(g: Setting, s: State, was: Row, row: Row)
    requires Calm(g, s) && was in s.rows && OwnRow(g, s.nextId, row) && SameIdentity(row, was)
    requires was.status.Submitted? ==> row.link == was.link || Attachable(s.rows, row.link)
    requires !was.status.Submitted? ==> was.status.Confirmed? && row.status.Confirmed?
    requires !was.status.Submitted? && !Late(g, was) ==>
               row == was || (!was.op.Kick? && was.link.None? && (row.link == was.link || Attachable(s.rows, row.link)))
    ensures Calm(g, State(SetRow(s.rows, row), s.nextId)) && Passed(s.rows, SetRow(s.rows, row), Late(g, was))
  {
    assert Late(g, was) ==> was.status.Confirmed?;
    hide Attachable, OwnRow, Late, SettledBelow, KicksNewestFirst, FrozenKept;
    TidyPair(g, s);
    var i := TidyUpdate(g, s, was, row);
    if row == was {
      assert s.rows[i := row] == s.rows;
      NoPass(s.rows);
      PassedLate(s.rows, s.rows, Late(g, was));
    } else if Late(g, was) {
      LateUpdate(g, s, i, row);
    } else {
      UpdateFreezes(s.rows, i, row);
      if was.op.Kick? {
        SubmittedThawed(s.rows, was);
      }
      ThawedUpdateKicks(s.rows, i, row);
      MovedIsTail(KicksNewestFirst(s.rows), KicksNewestFirst(s.rows[i := row]));
      KeptFrozen(s.rows, s.rows[i := row]);
      MovedSettled(s.rows, s.rows[i := row], KicksNewestFirst(s.rows), KicksNewestFirst(s.rows[i := row]));
    }
  }

  lemma SubmittedThawed(rows: seq<Row>, r: Row)
    requires r.status.Submitted? && r.op.Kick?
    ensures ActiveKick(r) && !Frozen(rows, r)
  {
  }

  lemma KeptFrozen(rows: seq<Row>, after: seq<Row>)
    requires FrozenKept(rows, after)
    ensures StillFrozen(rows, after)
  {
    hide Frozen, ClassifyRound;
  }

  lemma LateUpdate(g: Setting, s: State, i: nat, row: Row)
    requires Calm(g, s) && i < |s.rows| && Late(g, s.rows[i]) && row.status.Confirmed? && SameIdentity(row, s.rows[i])
    ensures var after := s.rows[i := row];
            && SettledBelow(after, KicksNewestFirst(after))
            && TailMoved(KicksNewestFirst(s.rows), KicksNewestFirst(after)) && StillFrozen(s.rows, after)
  {
    hide SettledBelow, KicksNewestFirst, Decoded1;
    var was, after := s.rows[i], s.rows[i := row];
    assert was in s.rows && OwnRow(g, s.nextId, was);
    TidyPair(g, s);
    assert !was.ClosesRound() && was.amount.None?;
    hide Tidy, OwnRow;
    forall k | Frozen(s.rows, k) ensures Frozen(after, k) {
      LateFrozen(s.rows, i, row, k);
    }
    assert was.op.Kick? ==> ActiveKick(was) && !Frozen(s.rows, was);
    ThawedUpdateKicks(s.rows, i, row);
    MovedIsTail(KicksNewestFirst(s.rows), KicksNewestFirst(after));
    hide Frozen;
    MovedSettled(s.rows, after, KicksNewestFirst(s.rows), KicksNewestFirst(after));
  }

  lemma CalmFinalize(g: Setting, s: State, tx: string, was: Row)
    requires Calm(g, s) && was in s.rows && was.tx == Some(tx) && g.chain(tx).ok
    ensures var after := SetRow(s.rows, Finalized(s.rows, TheReceipt(g, tx), g.events(tx), was));
            Calm(g, State(after, s.nextId)) && Passed(s.rows, after, Late(g, was))
  {
    hide SettledBelow, KicksNewestFirst, Finalized, SetRow, Attachable, Decoded1, Passed;
    assert OwnRow(g, s.nextId, was);
    FinalizedOwn(g, s, tx, was);
    if was.status.Confirmed? && !Late(g, was) {
      ReplayRow(g, s, tx, was);
    }
    CalmUpdate(g, s, was, Finalized(s.rows, TheReceipt(g, tx), g.events(tx), was));
  }

  ghost predicate SomeLate(g: Setting, todo: seq<Row>) {
    exists r :: r in todo && Late(g, r)
  }

  lemma {:induction false} CalmPass(g: Setting, s: State, tx: string, todo: seq<Row>)
    requires Calm(g, s) && InTable(s.rows, todo) && g.chain(tx).ok && forall r :: r in todo ==> r.tx == Some(tx)
    ensures var after := FinalizeRows(s.rows, TheReceipt(g, tx), g.events(tx), todo);
            Calm(g, State(after, s.nextId)) && Passed(s.rows, after, SomeLate(g, todo))
    decreases |todo|
  {
    if |todo| > 0 {
      CalmAscending(g, s);
      FirstInTable(s.rows, todo);
      RestLate(g, todo);
      hide Calm, Finalized, InTable, Passed, SomeLate, Late;
      var receipt, d := TheReceipt(g, tx), g.events(tx);
      var next := SetRow(s.rows, Finalized(s.rows, receipt, d, todo[0]));
      Advance(s.rows, receipt, d, todo);
      CalmFinalize(g, s, tx, todo[0]);
      CalmPass(g, State(next, s.nextId), tx, todo[1..]);
      PassesCompose(s.rows, next, FinalizeRows(s.rows, receipt, d, todo), Late(g, todo[0]), SomeLate(g, todo[1..]));
    } else {
      NoPass(s.rows);
      PassedLate(s.rows, s.rows, SomeLate(g, todo));
    }
  }

  lemma RestLate(g: Setting, todo: seq<Row>)
    requires |todo| > 0
    ensures SomeLate(g, todo) <==> Late(g, todo[0]) || SomeLate(g, todo[1..])
  {
    hide Late;
    assert todo == [todo[0]] + todo[1..];
    if SomeLate(g, todo[1..]) {
      var r :| r in todo[1..] && Late(g, r);
      assert r in todo;
    }
  }

  lemma CalmAscending(g: Setting, s: State)
    requires Calm(g, s)
    ensures Ascending(s.rows)
  {
  }

  lemma FirstInTable(rows: seq<Row>, todo: seq<Row>)
    requires InTable(rows, todo) && |todo| > 0
    ensures todo[0] in todo && todo[0] in rows
  {
  }

  lemma MineAdvance(rows: seq<Row>, todo: seq<Row>, row: Row)
    requires Ascending(rows) && InTable(rows, todo) && |todo| > 0 && row.id == todo[0].id
    ensures InTable(SetRow(rows, row), todo[1..]) && todo[0] in rows
    ensures forall r :: r in todo[1..] ==> r in todo
  {
    hide SetRow;
    assert todo[0] in todo;
    SetPresent(rows, row, todo[0]);
    forall r | r in todo[1..] ensures r in rows && r.id != todo[0].id && r in todo {
      var i :| 0 <= i < |todo[1..]| && todo[1..][i] == r;
      assert todo[i + 1] == r && r in todo;
    }
  }

  /** A receipt without evidence, reverted or not decodable: submitted rows take its place
      and status, the others already have them. */
  lemma MineKeeps(g: Setting, s: State, tx: string, status: Status, was: Row)
    requires Inv(g, s) && was in s.rows && was.tx == Some(tx)
    requires status == if g.chain(tx).ok then Confirmed else OtherStatus
    ensures Inv(g, State(SetRow(s.rows, Receipts.Mined(was, TheReceipt(g, tx), status)), s.nextId))
    ensures was.status.Submitted? || Receipts.Mined(was, TheReceipt(g, tx), status) == was
  {
    hide SettledBelow, Bounded, KicksNewestFirst, SetRow;
    assert OwnRow(g, s.nextId, was);
    var row := Receipts.Mined(was, TheReceipt(g, tx), status);
    if was.status.Submitted? {
      UpdateKeeps(g, s, was, row);
    } else {
      TidyPair(g, s);
      SetPresent(s.rows, row, was);
    }
  }

  lemma {:induction false} MinePassKeeps(g: Setting, s: State, tx: string, status: Status, todo: seq<Row>)
    requires Inv(g, s) && InTable(s.rows, todo) && forall r :: r in todo ==> r.tx == Some(tx)
    requires status == if g.chain(tx).ok then Confirmed else OtherStatus
    ensures Inv(g, State(MineRows(s.rows, TheReceipt(g, tx), status, todo), s.nextId))
    decreases |todo|
  {
    if |todo| > 0 {
      InvAscending(g, s);
      hide Inv, InTable, SetRow;
      var row := Receipts.Mined(todo[0], TheReceipt(g, tx), status);
      FirstInTable(s.rows, todo);
      MineAdvance(s.rows, todo, row);
      MineKeeps(g, s, tx, status, todo[0]);
      MinePassKeeps(g, State(SetRow(s.rows, row), s.nextId), tx, status, todo[1..]);
    }
  }

  /** A settlement event taken from the chain. */
  ghost predicate FromChain(g: Setting, it: CloseItem) {
    exists tx :: it.receipt == TheReceipt(g, tx) && it.d == g.events(tx) && g.chain(tx).ok
  }

  lemma {:induction false} SettleKeeps(g: Setting, s: State, items: seq<CloseItem>)
    requires Inv(g, s) && forall it :: it in items ==> FromChain(g, it)
    ensures var t := SettleAll(s.rows, s.nextId, items); Inv(g, State(t, s.nextId + |t| - |s.rows|))
    decreases |items|
  {
    hide NewClose, Inv, FromChain;
    if |items| == 0 {
      assert State(s.rows, s.nextId) == s;
    } else {
      assert items[0] in items && forall it :: it in items[1..] ==> it in items;
      var close := NewClose(s.rows, items[0].receipt, items[0].d, items[0].e);
      if close.None? {
        SettleKeeps(g, s, items[1..]);
      } else {
        var row := close.value.(id := s.nextId);
        CloseKeeps(g, s, items[0], row);
        SettleKeeps(g, State(s.rows + [row], s.nextId + 1), items[1..]);
      }
    }
  }

  lemma CloseKeeps(g: Setting, s: State, it: CloseItem, row: Row)
    requires Inv(g, s) && FromChain(g, it)
    requires var close := NewClose(s.rows, it.receipt, it.d, it.e); close.Some? && row == close.value.(id := s.nextId)
    ensures Inv(g, State(s.rows + [row], s.nextId + 1))
  {
    hide Attachable, Tidy, SettledBelow, Bounded, LatestUnclosedKick, OfPair, HasExact, ResolvedPair, OwnRow;
    NewCloseAttaches(g, s, it, row);
    AppendKeeps(g, s, row);
  }

  lemma NewCloseAttaches(g: Setting, s: State, it: CloseItem, row: Row)
    requires Tidy(g, s) && FromChain(g, it)
    requires var close := NewClose(s.rows, it.receipt, it.d, it.e); close.Some? && row == close.value.(id := s.nextId)
    ensures OwnRow(g, s.nextId + 1, row) && !row.op.Kick? && Attachable(s.rows, row.link)
  {
    hide LatestUnclosedKick, Attachable, Stamp;
    var k := LatestUnclosedKick(s.rows, it.e.auction, it.e.token, Some(it.receipt.pos));
    TidyPair(g, s);
    assert OfPair(k.value, g.auction, g.token);
    LookupAttachable(g, s, Some(it.receipt.pos));
    var tx :| it.receipt == TheReceipt(g, tx) && it.d == g.events(tx) && g.chain(tx).ok;
    CloseIsFinal(it.receipt, it.d, row);
  }

  lemma CloseIsFinal(receipt: Receipt, d: Decoded, row: Row)
    requires row.op.Settled? && Mined(row, receipt, Confirmed) == row
    ensures Final(receipt, d, row)
  {
  }

  lemma OwnRowsReady(g: Setting, s: State, tx: string, accept: int -> bool)
    requires Inv(g, s)
    ensures InTable(s.rows, RowsOf(s.rows, tx, accept))
    ensures forall r :: r in RowsOf(s.rows, tx, accept) ==> r.tx == Some(tx)
  {
    hide RowsOf, InTable;
    InvAscending(g, s);
    OwnRowsInTable(s.rows, tx, accept);
  }

  lemma EventsFromChain(g: Setting, tx: string)
    requires g.chain(tx).ok
    ensures forall it :: it in ItemsOf(TheReceipt(g, tx), g.events(tx)) ==> FromChain(g, it)
  {
  }

  /** Settlements touch no settled round. */
  lemma {:induction false} SettleFreezes(g: Setting, s: State, items: seq<CloseItem>)
    requires Tidy(g, s) && forall it :: it in items ==> FromChain(g, it)
    ensures FrozenKept(s.rows, SettleAll(s.rows, s.nextId, items))
    decreases |items|
  {
    hide NewClose, Tidy, FromChain, FrozenKept, Attachable, OwnRow;
    if |items| == 0 {
      SameFrozen(s.rows);
    } else {
      assert items[0] in items && forall it :: it in items[1..] ==> it in items;
      var close := NewClose(s.rows, items[0].receipt, items[0].d, items[0].e);
      if close.None? {
        SettleFreezes(g, s, items[1..]);
      } else {
        var row := close.value.(id := s.nextId);
        NewCloseAttaches(g, s, items[0], row);
        NewCloseId(s, items[0], row);
        TidyAppend(g, s, row);
        AppendFreezes(s.rows, row);
        SettleFreezes(g, State(s.rows + [row], s.nextId + 1), items[1..]);
        FrozenTwice(s.rows, s.rows + [row], SettleAll(s.rows, s.nextId, items));
      }
    }
  }

  lemma NewCloseId(s: State, it: CloseItem, row: Row)
    requires var close := NewClose(s.rows, it.receipt, it.d, it.e); close.Some? && row == close.value.(id := s.nextId)
    ensures row.id == s.nextId
  {
  }

  lemma SameFrozen(rows: seq<Row>)
    ensures FrozenKept(rows, rows)
  {
    hide Frozen, ClassifyRound;
  }

  lemma FrozenTwice(a: seq<Row>, b: seq<Row>, c: seq<Row>)
    requires FrozenKept(a, b) && FrozenKept(b, c)
    ensures FrozenKept(a, c)
  {
    hide Frozen, ClassifyRound;
  }

  /** A tail of kicks no round of which became a no-fill stays bounded. */
  lemma TailBounded(rows: seq<Row>, after: seq<Row>, kicks: seq<Row>, moved: seq<Row>, n: nat)
    requires Bounded(rows, kicks, n) && TailMoved(kicks, moved)
    requires forall k :: SettledKick(kicks, k) && !k.baseline && ClassifyRound(k, after).outcome.NoFill? ==>
               ClassifyRound(k, rows).outcome.NoFill?
    ensures Bounded(after, moved, n)
  {
    hide ClassifyRound, Streak;
    forall i | 0 < i <= |moved| ensures Streak(after, moved[i..]) <= n {
      var j := i + |kicks| - |moved|;
      assert moved[i..] == kicks[j..];
      forall k | k in kicks[j..] ensures SettledKick(kicks, k) {
        var m :| 0 <= m < |kicks[j..]| && kicks[j..][m] == k;
        assert kicks[j + m] == k;
      }
      StreakNotLonger(rows, after, kicks[j..]);
    }
  }

  /** The rows of a receipt with its events, restrained if some come late. */
  lemma EvidenceKeeps(g: Setting, s: State, tx: string, todo: seq<Row>)
    requires Inv(g, s) && InTable(s.rows, todo) && g.chain(tx).ok && forall r :: r in todo ==> r.tx == Some(tx)
    requires var t := SettleAll(FinalizeRows(s.rows, TheReceipt(g, tx), g.events(tx), todo), s.nextId,
                                ItemsOf(TheReceipt(g, tx), g.events(tx)));
             SomeLate(g, todo) ==> Restrained(s.rows, t)
    ensures Inv(g, State(FinalizeRows(s.rows, TheReceipt(g, tx), g.events(tx), todo), s.nextId))
  {
    hide KicksNewestFirst, ClassifyRound, Frozen, FinalizeRows, SettleAll, ItemsOf, FromChain, InTable, SomeLate,
         Tidy, TailMoved, SettledBelow, Bounded, SettledKick;
    var mid := FinalizeRows(s.rows, TheReceipt(g, tx), g.events(tx), todo);
    var t := SettleAll(mid, s.nextId, ItemsOf(TheReceipt(g, tx), g.events(tx)));
    CalmPass(g, s, tx, todo);
    EventsFromChain(g, tx);
    SettleFreezes(g, State(mid, s.nextId), ItemsOf(TheReceipt(g, tx), g.events(tx)));
    var kicks := KicksNewestFirst(s.rows);
    forall k | SettledKick(kicks, k) && !k.baseline && ClassifyRound(k, mid).outcome.NoFill?
      ensures ClassifyRound(k, s.rows).outcome.NoFill?
    {
      SettledIsFrozen(s.rows, kicks, k);
    }
    TailBounded(s.rows, mid, kicks, KicksNewestFirst(mid), |g.delays|);
  }

  lemma EventsKeep(g: Setting, s: State, tx: string, todo: seq<Row>)
    requires Inv(g, s) && InTable(s.rows, todo) && g.chain(tx).ok && forall r :: r in todo ==> r.tx == Some(tx)
    requires var t := SettleAll(FinalizeRows(s.rows, TheReceipt(g, tx), g.events(tx), todo), s.nextId,
                                ItemsOf(TheReceipt(g, tx), g.events(tx)));
             SomeLate(g, todo) ==> Restrained(s.rows, t)
    ensures var t := SettleAll(FinalizeRows(s.rows, TheReceipt(g, tx), g.events(tx), todo), s.nextId,
                               ItemsOf(TheReceipt(g, tx), g.events(tx)));
            Inv(g, State(t, s.nextId + |t| - |s.rows|))
  {
    hide Inv, FinalizeRows, SettleAll, InTable, ItemsOf, FromChain, Restrained, SomeLate;
    EvidenceKeeps(g, s, tx, todo);
    EventsFromChain(g, tx);
    SettleKeeps(g, State(FinalizeRows(s.rows, TheReceipt(g, tx), g.events(tx), todo), s.nextId),
                ItemsOf(TheReceipt(g, tx), g.events(tx)));
  }

  /** Steps that can revise what is known of a settled round: a rebuild, and a receipt that
      brings evidence some row was confirmed without. */
  ghost predicate Revises(g: Setting, s: State, step: Step) {
    step.Relink? || (step.Receive? && step.decodes && SomeLate(g, RowsOf(s.rows, step.tx, step.accept)))
  }

  /** A rebuild starts from an agreeable table; late evidence makes no settled round a
      no-fill. */
  ghost predicate StepRestrained(g: Setting, s: State, step: Step) {
    Revises(g, s, step) ==> if step.Relink? then Agreeable(s.rows) else Restrained(s.rows, After(g, s, step))
  }

  lemma ReceiveKeeps(g: Setting, s: State, tx: string, decodes: bool, accept: int -> bool)
    requires Inv(g, s) && StepRestrained(g, s, Receive(tx, decodes, accept))
    ensures Inv(g, Next(g, s, Receive(tx, decodes, accept)))
  {
    hide Inv, FinalizeRows, SettleAll, MineRows, RowsOf, InTable, ItemsOf, Restrained, SomeLate;
    var todo := RowsOf(s.rows, tx, accept);
    OwnRowsReady(g, s, tx, accept);
    if todo == [] {
      assert Next(g, s, Receive(tx, decodes, accept)) == s;
    } else if !g.chain(tx).ok {
      MinePassKeeps(g, s, tx, OtherStatus, todo);
    } else if !decodes {
      MinePassKeeps(g, s, tx, Confirmed, todo);
    } else {
      EventsKeep(g, s, tx, todo);
    }
  }

  lemma FoundFromChain(g: Setting, found: seq<(string, SettlementEvent)>)
    requires forall e :: e in found ==> g.chain(e.0).ok
    ensures forall it :: it in Items(g, found) ==> FromChain(g, it)
  {
    forall it | it in Items(g, found) ensures FromChain(g, it) {
      var i :| 0 <= i < |found| && Items(g, found)[i] == it;
      assert found[i] in found && it == ItemOf(g, found[i]);
    }
  }

  lemma DiscoverKeeps(g: Setting, s: State, found: seq<(string, SettlementEvent)>)
    requires Inv(g, s) && forall e :: e in found ==> g.chain(e.0).ok
    ensures Inv(g, Next(g, s, Discover(found)))
  {
    hide Inv, SettleAll, Items, FromChain;
    FoundFromChain(g, found);
    SettleKeeps(g, s, Items(g, found));
  }

  lemma InvAscending(g: Setting, s: State)
    requires Inv(g, s)
    ensures Ascending(s.rows)
  {
  }
  lemma ClearKeeps(g: Setting, s: State)
    requires Inv(g, s) && Enabled(g, s, ClearSuspension)
    ensures Inv(g, Next(g, s, ClearSuspension))
  {
    hide SettledBelow, Bounded, KicksNewestFirst, PlanClear, MarkBaseline;
    var id := PlanClear(s.rows).value.baselineKickId;
    var after := MarkBaseline(s.rows, id);
    TidyMarked(g, s, id);
    TidyPair(g, s);
    hide Tidy;
    MarkedKicks(s.rows, id);
    ClearedFrozen(s.rows);
    MarkedSettled(s.rows, after, KicksNewestFirst(s.rows), KicksNewestFirst(after), id);
    MarkedBounded(s.rows, after, KicksNewestFirst(s.rows), KicksNewestFirst(after), |g.delays|);
  }

  lemma StampedMark(g: Setting, a: Row, b: Row)
    requires Alike1(a, b) && Stamped(g, b)
    ensures Stamped(g, a)
  {
  }

  lemma TidyMarked(g: Setting, s: State, id: int)
    requires Tidy(g, s)
    ensures Tidy(g, State(MarkBaseline(s.rows, id), s.nextId))
  {
    hide Stamped;
    var after := MarkBaseline(s.rows, id);
    forall i | 0 <= i < |after|
      ensures after[i] == s.rows[i].(baseline := after[i].baseline) && OwnRow(g, s.nextId, after[i])
    {
      assert Alike1(after[i], s.rows[i]) && s.rows[i] in s.rows;
      StampedMark(g, after[i], s.rows[i]);
    }
    forall i, j | 0 <= i < j < |after| ensures after[i].id < after[j].id {
      assert s.rows[i].id < s.rows[j].id;
    }
  }

  lemma RecoveryKeeps(g: Setting, s: State, recovery: Row)
    requires Inv(g, s) && Enabled(g, s, SubmitRecovery(recovery))
    ensures Inv(g, Next(g, s, SubmitRecovery(recovery)))
  {
    hide SettledBelow, Bounded, KicksNewestFirst, LatestUnclosedKick, Attachable;
    LookupAttachable(g, s, None);
    FreshIsOwn(g, s.nextId, recovery);
    NoLinkAttaches(s.rows);
    AppendKeeps(g, s, recovery.(id := s.nextId));
  }

  // ------------------------------------------------------------- rebuilding

  lemma {:induction false} SameKickRows(rows: seq<Row>, after: seq<Row>)
    requires |after| == |rows|
    requires forall i :: 0 <= i < |rows| ==> ActiveKick(after[i]) == ActiveKick(rows[i])
    requires forall i :: 0 <= i < |rows| && ActiveKick(rows[i]) ==> after[i] == rows[i]
    ensures KicksNewestFirst(after) == KicksNewestFirst(rows)
  {
    hide InsertNewestFirst, ActiveKick;
    if |rows| > 0 {
      var n := |rows| - 1;
      SameKickRows(rows[..n], after[..n]);
    }
  }

  /** Rebuilding moves no kick. */
  lemma RebuiltKicks(rows: seq<Row>, rebuilt: seq<Row>, auction: string, token: string)
    requires Relinked(rows, rebuilt, auction, token)
    ensures KicksNewestFirst(rebuilt) == KicksNewestFirst(rows)
  {
    hide KicksNewestFirst, CanonicalLink;
    SameKickRows(rows, rebuilt);
  }

  lemma {:induction false} StreakNotLonger(rows: seq<Row>, after: seq<Row>, kicks: seq<Row>)
    requires forall k :: k in kicks && !k.baseline && ClassifyRound(k, after).outcome.NoFill? ==>
               ClassifyRound(k, rows).outcome.NoFill?
    ensures Streak(after, kicks) <= Streak(rows, kicks)
  {
    hide ClassifyRound;
    if |kicks| > 0 {
      assert kicks[0] in kicks;
      StreakNotLonger(rows, after, kicks[1..]);
    }
  }

  /** Exactly the restrained rebuilds keep settled rounds settled and lengthen no streak of
      them, counted from any of them. */
  lemma StreaksKeptIff(g: Setting, s: State, rebuilt: seq<Row>)
    requires Relinked(s.rows, rebuilt, g.auction, g.token)
    ensures var kicks := KicksNewestFirst(s.rows);
            Restrained(s.rows, rebuilt) <==>
              && SettledBelow(rebuilt, kicks)
              && forall i :: 0 < i < |kicks| ==> Streak(rebuilt, kicks[i..]) <= Streak(s.rows, kicks[i..])
  {
    var kicks := KicksNewestFirst(s.rows);
    hide KicksNewestFirst, ClassifyRound, Frozen, Relinked;
    if Restrained(s.rows, rebuilt) {
      forall i | 0 < i < |kicks| ensures SettledKick(kicks, kicks[i]) {
      }
      forall i | 0 < i < |kicks| ensures Streak(rebuilt, kicks[i..]) <= Streak(s.rows, kicks[i..]) {
        forall k | k in kicks[i..] ensures SettledKick(kicks, k) {
          var j :| 0 <= j < |kicks[i..]| && kicks[i..][j] == k;
          assert kicks[i + j] == k;
        }
        StreakNotLonger(s.rows, rebuilt, kicks[i..]);
      }
      forall k | k in kicks && k.baseline ensures SettledKick(kicks, k) {
      }
    } else if SettledBelow(rebuilt, kicks) {
      var k :| SettledKick(kicks, k) && !(Frozen(rebuilt, k)
               && (!k.baseline && ClassifyRound(k, rebuilt).outcome.NoFill? ==>
                    ClassifyRound(k, s.rows).outcome.NoFill?));
      assert Frozen(rebuilt, k);
      var i :| 0 < i < |kicks| && kicks[i] == k;
      assert kicks[i..][0] == k;
      assert Streak(rebuilt, kicks[i..]) > 0 == Streak(s.rows, kicks[i..]);
    }
  }

  lemma StampedLink(g: Setting, r: Row, link: Option<int>)
    requires Stamped(g, r) && (r.status.Confirmed? ==> (r.op.Resolve? && r.path == Some(0) ==> link.None?))
    requires r.status.Confirmed? || link == r.link
    ensures Stamped(g, r.(link := link))
  {
  }

  lemma RebuiltOwn(g: Setting, s: State, rebuilt: seq<Row>, i: nat)
    requires Tidy(g, s) && Relinked(s.rows, rebuilt, g.auction, g.token) && i < |s.rows|
    ensures OwnRow(g, s.nextId, rebuilt[i]) && rebuilt[i].id == s.rows[i].id
  {
    hide Stamped, LatestMark;
    var r := s.rows[i];
    assert r in s.rows && OwnRow(g, s.nextId, r);
    if Relinkable(r, g.auction, g.token) {
      if rebuilt[i].link.Some? {
        var k :| OpenBefore(s.rows, r, k) && rebuilt[i].link.value == k.id;
        MarkPresent(s.rows, r, k);
        assert OwnRow(g, s.nextId, k);
      }
      StampedLink(g, r, rebuilt[i].link);
    }
  }

  lemma MarkPresent(rows: seq<Row>, r: Row, k: Row)
    requires r.Position().Some? && OpenBefore(rows, r, k)
    ensures k in rows && k.op.Kick? && OnChain(k, r.auction, r.token) && ChainLess(k, r)
  {
  }

  lemma RebuiltTidy(g: Setting, s: State, rebuilt: seq<Row>)
    requires Tidy(g, s) && Relinked(s.rows, rebuilt, g.auction, g.token)
    ensures Tidy(g, State(rebuilt, s.nextId))
  {
    hide OwnRow, CanonicalLink;
    forall i | 0 <= i < |rebuilt| ensures OwnRow(g, s.nextId, rebuilt[i]) && rebuilt[i].id == s.rows[i].id {
      RebuiltOwn(g, s, rebuilt, i);
    }
  }

  lemma RelinkKeeps(g: Setting, s: State, rebuilt: seq<Row>)
    requires Inv(g, s) && Relinked(s.rows, rebuilt, g.auction, g.token) && Restrained(s.rows, rebuilt)
    ensures Inv(g, Next(g, s, Relink(rebuilt)))
  {
    var kicks := KicksNewestFirst(s.rows);
    hide KicksNewestFirst, SettledBelow, Restrained, Streak;
    RebuiltKicks(s.rows, rebuilt, g.auction, g.token);
    RebuiltTidy(g, s, rebuilt);
    StreaksKeptIff(g, s, rebuilt);
    hide Tidy, Relinked;
    forall i | 0 < i <= |kicks| ensures Streak(rebuilt, kicks[i..]) <= |g.delays| {
      if i < |kicks| {
        assert Streak(s.rows, kicks[i..]) <= |g.delays|;
      } else {
        NoKicksNoStreak(rebuilt);
        assert kicks[i..] == [];
      }
    }
  }

  lemma NoKicksNoStreak(rows: seq<Row>)
    ensures Streak(rows, []) == 0
  {
  }

  // ------------------------------------------------------------ main results

  /** Every rebuild and every piece of late evidence in the run is restrained. */
  ghost predicate RestrainedRun(g: Setting, s: State, steps: seq<Step>) {
    |steps| > 0 ==>
      && RestrainedRun(g, s, steps[..|steps| - 1])
      && StepRestrained(g, Run(g, s, steps[..|steps| - 1]), steps[|steps| - 1])
  }

  lemma InvRegular(g: Setting, s: State)
    requires Inv(g, s)
    ensures Regular(s.rows, g.auction, g.token) && SettledBelow(s.rows, KicksNewestFirst(s.rows))
  {
    hide KicksNewestFirst, SettledBelow, Bounded, Stamped;
    TidyPair(g, s);
    forall r | r in s.rows ensures (r.op.Kick? ==> r.link.None?) && (r.status.Confirmed? ==> r.Position().Some?) {
      assert OwnRow(g, s.nextId, r);
      if r.status.Confirmed? {
        StampedPlaced(g, r);
      }
    }
  }

  lemma StampedPlaced(g: Setting, r: Row)
    requires Stamped(g, r) && r.status.Confirmed?
    ensures r.tx.Some? && r.Position() == Some(g.chain(r.tx.value).pos)
  {
    if Decoded1(g, r) {
      FinalPosition(TheReceipt(g, r.tx.value), g.events(r.tx.value), r);
    }
  }

  lemma StepKeeps(g: Setting, s: State, step: Step)
    requires Inv(g, s) && Enabled(g, s, step) && StepRestrained(g, s, step)
    ensures Inv(g, Next(g, s, step))
  {
    hide Inv, Next, Restrained, Agreeable;
    match step
    case SubmitKick(kick, now) =>
      hide Enabled;
      KickKeeps(g, s, kick, now);
    case SubmitRecovery(recovery) =>
      hide Enabled;
      RecoveryKeeps(g, s, recovery);
    case Receive(tx, decodes, accept) =>
      hide StepRestrained;
      ReceiveKeeps(g, s, tx, decodes, accept);
    case Discover(found) => DiscoverKeeps(g, s, found);
    case Relink(rebuilt) =>
      InvRegular(g, s);
      RestrainedIff(s.rows, rebuilt, g.auction, g.token);
      RelinkKeeps(g, s, rebuilt);
    case ClearSuspension =>
      hide Enabled;
      ClearKeeps(g, s);
  }

  lemma {:induction false} RunKeeps(g: Setting, s: State, steps: seq<Step>)
    requires Inv(g, s) && Legal(g, s, steps) && RestrainedRun(g, s, steps)
    ensures Inv(g, Run(g, s, steps))
  {
    hide Inv, Enabled, Next, StepRestrained;
    if |steps| > 0 {
      RunKeeps(g, s, steps[..|steps| - 1]);
      StepKeeps(g, Run(g, s, steps[..|steps| - 1]), steps[|steps| - 1]);
    }
  }

  const START: State := State([], 1)

  /** A pair that is safe: at most one open round, the newest, and no more no-fills counted
      than there are retry delays, plus one. */
  ghost predicate Safe(g: Setting, rows: seq<Row>) {
    && (forall a, b :: a in rows && b in rows && Open(rows, a) && Open(rows, b) ==> a == b)
    && (forall a :: a in rows && Open(rows, a) ==> |KicksNewestFirst(rows)| > 0 && KicksNewestFirst(rows)[0] == a)
    && LatestSequence(CurrentRounds(rows)).noFills <= |g.delays| + 1
  }

  lemma InvIsSafe(g: Setting, s: State)
    requires Inv(g, s)
    ensures Safe(g, s.rows)
  {
    hide Inv, KicksNewestFirst, CurrentRounds, LatestSequence, Open;
    NoFillsBounded(g, s);
    forall a, b | a in s.rows && b in s.rows && Open(s.rows, a) && Open(s.rows, b)
      ensures a == b && |KicksNewestFirst(s.rows)| > 0 && KicksNewestFirst(s.rows)[0] == a
    {
      AtMostOneOpen(g, s, a, b);
    }
  }

  /** In every run from an empty history, receipts arriving and replaying in any order, with
      or without their evidence, the pair stays safe as long as every rebuild starts from an
      agreeable table and no late evidence makes a settled round a no-fill. */
  lemma RestrainedRuns(g: Setting, steps: seq<Step>)
    requires Legal(g, START, steps) && RestrainedRun(g, START, steps)
    ensures Safe(g, Run(g, START, steps).rows)
  {
    assert Inv(g, START);
    hide Inv, Safe;
    RunKeeps(g, START, steps);
    InvIsSafe(g, Run(g, START, steps));
  }
}
