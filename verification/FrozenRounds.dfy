/** Rounds that nothing can touch any more, streaks of no-fills among them, and how the
    newest-first list of kicks moves when one row changes (tidal/auction_rounds.py). */
module FrozenRounds {
  import opened Common
  import opened Rounds
  import opened PairHistory
  import opened Guard
  import opened Baselines
  import opened SuspensionClear
  import opened KickTable
  import opened Receipts
  import opened ReceiptLaws

  // --------------------------------------------------------- frozen rounds

  predicate HasClose(rows: seq<Row>, kickId: int) {
    exists r :: r in rows && r.link == Some(kickId) && r.status.Confirmed? && r.ClosesRound()
  }

  /** A round that still awaits its kick's receipt or a confirmed close. */
  predicate Open(rows: seq<Row>, k: Row) {
    ActiveKick(k) && (k.status.Submitted? || !HasClose(rows, k.id))
  }

  predicate InFlight(rows: seq<Row>, kickId: int) {
    exists r :: r in rows && r.link == Some(kickId) && r.status.Submitted?
  }

  /** Nothing that can still happen will touch this round's evidence. */
  predicate Frozen(rows: seq<Row>, k: Row) {
    k.status.Confirmed? && k.amount.Some? && HasClose(rows, k.id) && !InFlight(rows, k.id)
  }

  /** Consecutive no-fills from the front of the kicks, up to a baseline, by evidence alone. */
  function Streak(rows: seq<Row>, kicks: seq<Row>): nat {
    if |kicks| == 0 || kicks[0].baseline || !ClassifyRound(kicks[0], rows).outcome.NoFill? then 0
    else 1 + Streak(rows, kicks[1..])
  }

  /** Every kick but the newest is frozen, and so is every baselined one. */
  ghost predicate SettledBelow(rows: seq<Row>, kicks: seq<Row>) {
    && (forall i :: 0 < i < |kicks| ==> Frozen(rows, kicks[i]))
    && (forall k :: k in kicks && k.baseline ==> Frozen(rows, k))
  }

  ghost predicate Bounded(rows: seq<Row>, kicks: seq<Row>, n: nat) {
    forall i :: 0 < i <= |kicks| ==> Streak(rows, kicks[i..]) <= n
  }

  // ------------------------------------------------ what the invariant means

  /** The guard's count never exceeds the streak by evidence. */
  lemma {:induction false} CountWithinStreak(rows: seq<Row>, kicks: seq<Row>, rounds: seq<Evidence>)
    requires |rounds| <= |kicks|
    requires forall i :: 0 <= i < |rounds| ==> !kicks[i].baseline
    requires forall i :: 0 <= i < |rounds| && rounds[i].outcome.NoFill? ==>
             ClassifyRound(kicks[i], rows).outcome.NoFill?
    ensures LeadingNoFills(rounds) <= Streak(rows, kicks)
  {
    hide ClassifyRound;
    if |rounds| > 0 && rounds[0].outcome.NoFill? {
      CountWithinStreak(rows, kicks[1..], rounds[1..]);
    }
  }

  /** Where the guard's count ends on a productive round, a baseline or the first kick, the
      streak ends too. */
  lemma {:induction false} StreakWithinCount(rows: seq<Row>, kicks: seq<Row>, n: nat)
    requires n <= |kicks|
    requires n < |kicks| ==> kicks[n].baseline || !ClassifyRound(kicks[n], rows).outcome.NoFill?
    ensures Streak(rows, kicks) <= n
  {
    hide ClassifyRound;
    if n > 0 {
      StreakWithinCount(rows, kicks[1..], n - 1);
    }
  }

  lemma RoundOutcome(rows: seq<Row>, i: nat)
    requires i < |KicksNewestFirst(rows)|
    ensures AllRounds(rows)[i].Completed() ==>
             AllRounds(rows)[i].outcome == ClassifyRound(KicksNewestFirst(rows)[i], rows).outcome
  {
    hide KicksNewestFirst, ClassifyRound, HasStrayClose;
  }

  /** A completed round is frozen. */
  lemma CompletedFrozen(rows: seq<Row>, k: Row)
    requires ClassifyRound(k, rows).Completed()
    ensures Frozen(rows, k)
  {
    hide ClassifyRound, Filter, GivenBack, KickUsable;
    CompletedIff(k, rows);
    var close := Filter(ClosesKick(k.id), rows)[0];
    assert CompleteRound(k, rows, close);
    assert Filter(ClosesKick(k.id), rows) == [close];
    assert close in Filter(ClosesKick(k.id), rows);
    assert close in rows && ClosesKick(k.id)(close);
    forall r | r in rows && r.link == Some(k.id) ensures !r.status.Submitted? {
      assert Sound(k, r);
    }
  }

  lemma BaselinedFlag(rows: seq<Row>, k: Row)
    requires Ascending(rows) && k in rows && k.op.Kick?
    ensures Baselined(rows, k.id) <==> k.baseline
  {
    if Baselined(rows, k.id) {
      var r :| r in rows && r.op.Kick? && r.baseline && r.id == k.id;
      var i :| 0 <= i < |rows| && rows[i] == r;
      var j :| 0 <= j < |rows| && rows[j] == k;
    }
  }

  /** A confirmed current history: how its rounds relate to the kicks. */
  lemma CurrentKicks(rows: seq<Row>)
    requires Ascending(rows)
    ensures var c, kicks := CurrentRounds(rows), KicksNewestFirst(rows);
            && |c| <= |kicks| && c == AllRounds(rows)[..|c|]
            && (forall i :: 0 <= i < |c| ==> !kicks[i].baseline)
            && (|c| < |kicks| ==> kicks[|c|].baseline)
  {
    var c, kicks := CurrentRounds(rows), KicksNewestFirst(rows);
    CurrentIsPrefix(rows);
    RoundIds(rows);
    KickMembers(rows);
    hide KicksNewestFirst, AllRounds, Baselined;
    forall i | 0 <= i < |kicks| ensures Baselined(rows, kicks[i].id) <==> kicks[i].baseline {
      assert kicks[i] in kicks;
      BaselinedFlag(rows, kicks[i]);
    }
    forall i | 0 <= i < |c| ensures !kicks[i].baseline {
      assert c[i] in c && c[i] == AllRounds(rows)[i];
    }
  }

  /** What the guard's leave says about the newest rounds. */
  lemma AllowedCount(delays: seq<int>, rows: seq<Row>, now: int)
    requires Ascending(rows) && Decide(rows, delays, now, false).action.Allow?
    ensures var c, kicks := CurrentRounds(rows), KicksNewestFirst(rows); var n := LeadingNoFills(c);
            && n <= |c| <= |kicks| && n <= |delays|
            && (n < |c| ==> ClassifyRound(kicks[n], rows).outcome.Productive?)
            && (n == |c| < |kicks| ==> kicks[n].baseline)
            && (|c| > 0 ==> Frozen(rows, kicks[0]))
            && (|c| == 0 < |kicks| ==> kicks[0].baseline)
  {
    var kicks, current := KicksNewestFirst(rows), CurrentRounds(rows);
    CurrentKicks(rows);
    AllowsIff(current, delays, now);
    hide KicksNewestFirst, CurrentRounds, ClassifyRound, AllRounds, Frozen, Judge;
    var n := LeadingNoFills(current);
    if n < |current| {
      assert current[n] == AllRounds(rows)[n];
      RoundOutcome(rows, n);
    }
    if |current| > 0 {
      assert current[0] == AllRounds(rows)[0];
      RoundOutcome(rows, 0);
      CompletedFrozen(rows, kicks[0]);
    }
  }

  /** A settled round: superseded by a newer kick, or baselined. */
  ghost predicate SettledKick(kicks: seq<Row>, k: Row) {
    k in kicks && (k.baseline || exists i :: 0 < i < |kicks| && kicks[i] == k)
  }

  lemma SettledIsFrozen(rows: seq<Row>, kicks: seq<Row>, k: Row)
    requires SettledBelow(rows, kicks) && SettledKick(kicks, k)
    ensures Frozen(rows, k)
  {
    hide Frozen;
  }

  // ------------------------------------------- what one change leaves alone

  /** Evidence is read from linked rows only. */
  lemma LinkedSame(rows: seq<Row>, after: seq<Row>, k: Row)
    requires Filter(LinkedTo(k.id), after) == Filter(LinkedTo(k.id), rows)
    ensures ClassifyRound(k, after) == ClassifyRound(k, rows)
    ensures Frozen(after, k) == Frozen(rows, k)
  {
    hide ClassifyLinked;
    forall r: Row | r.link == Some(k.id) ensures r in rows <==> r in after {
      assert r in Filter(LinkedTo(k.id), rows) <==> r in Filter(LinkedTo(k.id), after);
    }
  }

  ghost predicate FrozenKept(rows: seq<Row>, after: seq<Row>) {
    forall k :: Frozen(rows, k) ==> Frozen(after, k) && ClassifyRound(k, after) == ClassifyRound(k, rows)
  }

  /** A link a change may introduce: to a round without a confirmed close. */
  predicate Attachable(rows: seq<Row>, link: Option<int>) {
    link.Some? ==> !HasClose(rows, link.value)
  }

  lemma SetIsUpdate(rows: seq<Row>, i: nat, row: Row)
    requires Ascending(rows) && i < |rows| && rows[i].id == row.id
    ensures SetRow(rows, row) == rows[i := row]
  {
  }

  lemma UpdateFreezes(rows: seq<Row>, i: nat, row: Row)
    requires i < |rows| && (rows[i].status.Submitted? || rows[i].link.None?)
    requires row.link == rows[i].link || Attachable(rows, row.link)
    ensures FrozenKept(rows, rows[i := row])
  {
    hide ClassifyRound, Filter;
    forall k | Frozen(rows, k)
      ensures Frozen(rows[i := row], k) && ClassifyRound(k, rows[i := row]) == ClassifyRound(k, rows)
    {
      assert rows[i] in rows;
      FilterSkipsUpdate(LinkedTo(k.id), rows, i, row);
      LinkedSame(rows, rows[i := row], k);
    }
  }

  lemma AppendFreezes(rows: seq<Row>, row: Row)
    requires Attachable(rows, row.link)
    ensures FrozenKept(rows, rows + [row])
  {
    hide ClassifyRound, Filter;
    forall k | Frozen(rows, k)
      ensures Frozen(rows + [row], k) && ClassifyRound(k, rows + [row]) == ClassifyRound(k, rows)
    {
      FilterAppend(LinkedTo(k.id), rows, row);
      LinkedSame(rows, rows + [row], k);
    }
  }

  // --------------------------------------------------- the kicks, newest first

  lemma KicksAppend(rows: seq<Row>, row: Row)
    ensures KicksNewestFirst(rows + [row])
            == if ActiveKick(row) then InsertNewestFirst(KicksNewestFirst(rows), row) else KicksNewestFirst(rows)
  {
    assert (rows + [row])[..|rows|] == rows;
  }

  lemma UpdateSplits(rows: seq<Row>, i: nat, row: Row)
    requires i < |rows|
    ensures var n := |rows| - 1;
            rows[i := row] == if i == n then rows[..n] + [row] else rows[..n][i := row] + [rows[n]]
  {
  }

  lemma {:induction false} OtherRowKicks(rows: seq<Row>, i: nat, row: Row)
    requires i < |rows| && !ActiveKick(rows[i]) && !ActiveKick(row)
    ensures KicksNewestFirst(rows[i := row]) == KicksNewestFirst(rows)
    decreases |rows|
  {
    hide KicksNewestFirst, InsertNewestFirst, ActiveKick;
    var n := |rows| - 1;
    UpdateSplits(rows, i, row);
    KicksAppend(rows[..n], rows[n]);
    assert rows == rows[..n] + [rows[n]];
    if i == n {
      KicksAppend(rows[..n], row);
    } else {
      KicksAppend(rows[..n][i := row], rows[n]);
      OtherRowKicks(rows[..n], i, row);
    }
  }

  ghost predicate NewestKick(rows: seq<Row>, i: nat, kick: Row)
    requires i < |rows|
  {
    forall j :: 0 <= j < |rows| && j != i && ActiveKick(rows[j]) ==> Older(rows[j], kick)
  }

  lemma InsertBehind(kick: Row, kicks: seq<Row>, row: Row)
    requires Older(row, kick)
    ensures InsertNewestFirst([kick] + kicks, row) == [kick] + InsertNewestFirst(kicks, row)
  {
    assert ([kick] + kicks)[1..] == kicks;
  }

  lemma InsertInFront(rows: seq<Row>, kick: Row)
    requires forall r :: r in rows && ActiveKick(r) ==> Older(r, kick)
    ensures InsertNewestFirst(KicksNewestFirst(rows), kick) == [kick] + KicksNewestFirst(rows)
  {
    KickMembers(rows);
    var kicks := KicksNewestFirst(rows);
    hide KicksNewestFirst;
    if |kicks| > 0 {
      assert kicks[0] in kicks;
      OlderAsymmetric(kicks[0], kick);
    }
  }

  lemma OlderAsymmetric(a: Row, b: Row)
    requires Older(a, b)
    ensures !Older(b, a)
  {
  }

  lemma NewestSplits(rows: seq<Row>, i: nat, kick: Row)
    requires i < |rows| && NewestKick(rows, i, kick)
    ensures var n := |rows| - 1;
            if i == n then forall r :: r in rows[..n] && ActiveKick(r) ==> Older(r, kick)
            else NewestKick(rows[..n], i, kick) && (ActiveKick(rows[n]) ==> Older(rows[n], kick))
  {
    hide Older, ActiveKick;
    var n := |rows| - 1;
    forall r | r in rows[..n] && ActiveKick(r) && i == n ensures Older(r, kick) {
      var j :| 0 <= j < n && rows[..n][j] == r;
      assert rows[j] == r;
    }
  }

  lemma NewestLast(init: seq<Row>, kick: Row, gone: Row)
    requires forall r :: r in init && ActiveKick(r) ==> Older(r, kick)
    requires ActiveKick(kick) && !ActiveKick(gone)
    ensures KicksNewestFirst(init + [kick]) == [kick] + KicksNewestFirst(init + [gone])
  {
    hide KicksNewestFirst, InsertNewestFirst, Older, ActiveKick;
    KicksAppend(init, kick);
    KicksAppend(init, gone);
    InsertInFront(init, kick);
  }

  lemma NewestEarlier(a: seq<Row>, b: seq<Row>, kick: Row, last: Row)
    requires KicksNewestFirst(a) == [kick] + KicksNewestFirst(b) && (ActiveKick(last) ==> Older(last, kick))
    ensures KicksNewestFirst(a + [last]) == [kick] + KicksNewestFirst(b + [last])
  {
    hide KicksNewestFirst, InsertNewestFirst, Older, ActiveKick;
    KicksAppend(a, last);
    KicksAppend(b, last);
    if ActiveKick(last) {
      InsertBehind(kick, KicksNewestFirst(b), last);
    }
  }

  /** The newest kick stands in front of the others. */
  lemma {:induction false} NewestInFront(rows: seq<Row>, i: nat, kick: Row, gone: Row)
    requires i < |rows| && NewestKick(rows, i, kick) && ActiveKick(kick) && !ActiveKick(gone)
    ensures KicksNewestFirst(rows[i := kick]) == [kick] + KicksNewestFirst(rows[i := gone])
    decreases |rows|
  {
    hide KicksNewestFirst, Older, ActiveKick, NewestKick;
    var n := |rows| - 1;
    UpdateSplits(rows, i, kick);
    UpdateSplits(rows, i, gone);
    NewestSplits(rows, i, kick);
    if i == n {
      NewestLast(rows[..n], kick, gone);
    } else {
      NewestInFront(rows[..n], i, kick, gone);
      NewestEarlier(rows[..n][i := kick], rows[..n][i := gone], kick, rows[n]);
    }
  }

  lemma HeadIsNewest(rows: seq<Row>, i: nat)
    requires Ascending(rows) && i < |rows| && |KicksNewestFirst(rows)| > 0 && KicksNewestFirst(rows)[0] == rows[i]
    ensures NewestKick(rows, i, rows[i])
  {
    var kicks := KicksNewestFirst(rows);
    KicksSorted(rows);
    KickMembers(rows);
    hide KicksNewestFirst;
    forall j | 0 <= j < |rows| && j != i && ActiveKick(rows[j]) ensures Older(rows[j], rows[i]) {
      assert rows[j] in kicks;
      var m :| 0 <= m < |kicks| && kicks[m] == rows[j];
      assert rows[j].id != rows[i].id;
      assert !Older(kicks[0], kicks[m]);
    }
  }

  /** The kicks after a step: the same, the newest rewritten or dropped, or a new one. */
  ghost predicate KicksMoved(kicks: seq<Row>, after: seq<Row>) {
    || after == kicks
    || (|kicks| > 0 && after == kicks[1..])
    || (|kicks| > 0 && |after| == |kicks| && after[1..] == kicks[1..] && !after[0].baseline)
  }

  /** A live kick that can still change is the newest. */
  lemma ThawedIsHead(rows: seq<Row>, i: nat)
    requires SettledBelow(rows, KicksNewestFirst(rows)) && i < |rows| && ActiveKick(rows[i]) && !Frozen(rows, rows[i])
    ensures |KicksNewestFirst(rows)| > 0 && KicksNewestFirst(rows)[0] == rows[i] && !rows[i].baseline
  {
    var kicks := KicksNewestFirst(rows);
    KickMembers(rows);
    hide KicksNewestFirst, Frozen;
    assert rows[i] in kicks;
    var m :| 0 <= m < |kicks| && kicks[m] == rows[i];
  }

  lemma SameAge(rows: seq<Row>, i: nat, kick: Row)
    requires i < |rows| && NewestKick(rows, i, rows[i]) && SameIdentity(kick, rows[i])
    ensures NewestKick(rows, i, kick)
  {
  }

  /** Rewriting a row: a kick among those that can be rewritten is the newest one. */
  lemma ThawedUpdateKicks(rows: seq<Row>, i: nat, row: Row)
    requires Ascending(rows) && SettledBelow(rows, KicksNewestFirst(rows))
    requires i < |rows| && SameIdentity(row, rows[i])
    requires rows[i].op.Kick? ==> ActiveKick(rows[i]) && !Frozen(rows, rows[i])
    ensures KicksMoved(KicksNewestFirst(rows), KicksNewestFirst(rows[i := row]))
  {
    hide KicksNewestFirst, SettledBelow, Ascending, NewestKick;
    if !rows[i].op.Kick? {
      OtherRowKicks(rows, i, row);
    } else {
      ThawedIsHead(rows, i);
      HeadIsNewest(rows, i);
      SameAge(rows, i, row);
      var gone := row.(status := OtherStatus);
      NewestInFront(rows, i, rows[i], gone);
      assert rows[i := rows[i]] == rows;
      var rest := KicksNewestFirst(rows[i := gone]);
      assert ([rows[i]] + rest)[1..] == rest;
      if ActiveKick(row) {
        NewestInFront(rows, i, row, gone);
        assert ([row] + rest)[1..] == rest;
      } else {
        OtherRowKicks(rows[i := gone], i, row);
        assert rows[i := gone][i := row] == rows[i := row];
      }
    }
  }

  /** The kicks below the newest are a tail of those below the newest before. */
  ghost predicate TailMoved(kicks: seq<Row>, after: seq<Row>) {
    && |after| <= |kicks|
    && forall i :: 0 < i <= |after| ==> after[i..] == kicks[i + |kicks| - |after|..]
  }

  lemma MovedIsTail(kicks: seq<Row>, after: seq<Row>)
    requires KicksMoved(kicks, after)
    ensures TailMoved(kicks, after)
  {
    forall i | 0 < i <= |after| ensures after[i..] == kicks[i + |kicks| - |after|..] {
      assert after[i..] == after[1..][i - 1..];
      assert kicks[i..] == kicks[1..][i - 1..];
      if |after| < |kicks| {
        assert kicks[1..][i..] == kicks[i + 1..];
      }
    }
  }

  lemma TailsCompose(a: seq<Row>, b: seq<Row>, c: seq<Row>)
    requires TailMoved(a, b) && TailMoved(b, c)
    ensures TailMoved(a, c)
  {
  }

  lemma SameTail(kicks: seq<Row>)
    ensures TailMoved(kicks, kicks)
  {
  }

  lemma {:induction false} StreakKept(rows: seq<Row>, after: seq<Row>, kicks: seq<Row>)
    requires forall k :: k in kicks ==> ClassifyRound(k, after) == ClassifyRound(k, rows)
    ensures Streak(after, kicks) == Streak(rows, kicks)
  {
    hide ClassifyRound;
    if |kicks| > 0 {
      assert kicks[0] in kicks;
      StreakKept(rows, after, kicks[1..]);
    }
  }

  /** What keeps the frozen rounds and moves the kicks so keeps the invariant. */
  lemma MovedKeeps(rows: seq<Row>, after: seq<Row>, kicks: seq<Row>, moved: seq<Row>, n: nat)
    requires SettledBelow(rows, kicks) && Bounded(rows, kicks, n) && FrozenKept(rows, after) && KicksMoved(kicks, moved)
    ensures SettledBelow(after, moved) && Bounded(after, moved, n)
  {
    hide ClassifyRound, Frozen;
    var d := |kicks| - |moved|;
    forall i | 0 < i < |moved| ensures Frozen(after, moved[i]) {
      assert moved[i] == kicks[i + d] by {
        assert moved[1..][i - 1] == moved[i];
        assert d == 0 ==> kicks[1..][i - 1] == kicks[i];
      }
    }
    forall k | k in moved && k.baseline ensures Frozen(after, k) {
      var i :| 0 <= i < |moved| && moved[i] == k;
      assert d == 1 ==> moved[i] == kicks[i + 1] && kicks[i + 1] in kicks;
      assert d == 0 && i > 0 ==> moved[1..][i - 1] == kicks[1..][i - 1] == kicks[i] && kicks[i] in kicks;
    }
    forall i | 0 < i <= |moved| ensures Streak(after, moved[i..]) <= n {
      assert moved[i..] == kicks[i + d..] by {
        assert moved[i..] == moved[1..][i - 1..];
        assert kicks[i..] == kicks[1..][i - 1..];
      }
      forall k | k in kicks[i + d..] ensures Frozen(rows, k) {
        var j :| 0 <= j < |kicks[i + d..]| && kicks[i + d..][j] == k;
        assert k == kicks[i + d + j];
      }
      StreakKept(rows, after, kicks[i + d..]);
    }
  }
  lemma NewHeadKeeps(rows: seq<Row>, after: seq<Row>, kicks: seq<Row>, row: Row, n: nat)
    requires SettledBelow(rows, kicks) && Bounded(rows, kicks, n) && FrozenKept(rows, after)
    requires Streak(rows, kicks) <= n && (|kicks| > 0 ==> Frozen(rows, kicks[0])) && !row.baseline
    ensures SettledBelow(after, [row] + kicks) && Bounded(after, [row] + kicks, n)
  {
    hide Frozen, Streak, SettledBelow, Bounded, FrozenKept;
    AllFrozen(rows, after, kicks);
    HeadSettled(after, kicks, row);
    HeadBounded(rows, after, kicks, row, n);
  }

  lemma HeadBounded(rows: seq<Row>, after: seq<Row>, kicks: seq<Row>, row: Row, n: nat)
    requires Bounded(rows, kicks, n) && Streak(rows, kicks) <= n && FrozenKept(rows, after)
    requires forall k :: k in kicks ==> Frozen(rows, k)
    ensures Bounded(after, [row] + kicks, n)
  {
    var moved := [row] + kicks;
    hide Frozen, Streak, FrozenKept;
    forall i | 0 < i <= |moved| ensures Streak(after, moved[i..]) <= n {
      SuffixStreak(rows, after, kicks, i - 1, n);
      assert moved[i..] == kicks[i - 1..];
    }
  }

  lemma AllFrozen(rows: seq<Row>, after: seq<Row>, kicks: seq<Row>)
    requires SettledBelow(rows, kicks) && FrozenKept(rows, after) && (|kicks| > 0 ==> Frozen(rows, kicks[0]))
    ensures forall k :: k in kicks ==> Frozen(rows, k) && Frozen(after, k)
  {
    hide Frozen, ClassifyRound;
    forall k | k in kicks ensures Frozen(rows, k) && Frozen(after, k) {
      var i :| 0 <= i < |kicks| && kicks[i] == k;
    }
  }

  lemma SuffixStreak(rows: seq<Row>, after: seq<Row>, kicks: seq<Row>, i: nat, n: nat)
    requires Bounded(rows, kicks, n) && Streak(rows, kicks) <= n && i <= |kicks| && FrozenKept(rows, after)
    requires forall k :: k in kicks ==> Frozen(rows, k)
    ensures Streak(after, kicks[i..]) <= n
  {
    hide ClassifyRound, Frozen, Streak;
    assert i == 0 ==> kicks[i..] == kicks;
    assert forall k :: k in kicks[i..] ==> k in kicks;
    StreakKept(rows, after, kicks[i..]);
  }

  lemma HeadSettled(after: seq<Row>, kicks: seq<Row>, row: Row)
    requires !row.baseline && forall k :: k in kicks ==> Frozen(after, k)
    ensures SettledBelow(after, [row] + kicks)
  {
    hide Frozen;
    forall i | 0 < i < |[row] + kicks| ensures Frozen(after, ([row] + kicks)[i]) {
      assert ([row] + kicks)[i] == kicks[i - 1];
    }
  }

  lemma NoLinkAttaches(rows: seq<Row>)
    ensures Attachable(rows, None)
  {
  }

  // ---------------------------------------------------- clearing a suspension

  lemma MarkedKicks(rows: seq<Row>, id: int)
    requires Ascending(rows)
    ensures var kicks, after := KicksNewestFirst(rows), KicksNewestFirst(MarkBaseline(rows, id));
            && |after| == |kicks| && Alike(after, kicks)
            && forall i :: 0 <= i < |kicks| ==>
                after[i] == if kicks[i].id == id then kicks[i].(baseline := true) else kicks[i]
  {
    var marked := MarkBaseline(rows, id);
    var kicks, after := KicksNewestFirst(rows), KicksNewestFirst(marked);
    KicksAlike(marked, rows);
    KickMembers(rows);
    KickMembers(marked);
    hide KicksNewestFirst;
    forall i | 0 <= i < |kicks|
      ensures after[i] == if kicks[i].id == id then kicks[i].(baseline := true) else kicks[i]
    {
      assert after[i] in after && kicks[i] in kicks && Alike1(after[i], kicks[i]);
      var x :| 0 <= x < |marked| && marked[x] == after[i];
      var y :| 0 <= y < |rows| && rows[y] == kicks[i];
      assert Alike1(marked[x], rows[x]);
    }
  }

  lemma FrozenAlike(rows: seq<Row>, after: seq<Row>, k: Row, k': Row)
    requires Alike(after, rows) && Alike1(k', k) && Frozen(rows, k)
    ensures Frozen(after, k')
  {
    var r :| r in rows && r.link == Some(k.id) && r.status.Confirmed? && r.ClosesRound();
    var i :| 0 <= i < |rows| && rows[i] == r;
    assert Alike1(after[i], rows[i]) && after[i] in after;
    forall x | x in after && x.link == Some(k.id) ensures !x.status.Submitted? {
      var j :| 0 <= j < |after| && after[j] == x;
      assert Alike1(after[j], rows[j]) && rows[j] in rows;
    }
  }

  /** More baselines shorten streaks. */
  lemma {:induction false} StreakShrinks(rows: seq<Row>, after: seq<Row>, kicks: seq<Row>, marked: seq<Row>)
    requires Alike(after, rows) && Alike(marked, kicks)
    requires forall i :: 0 <= i < |kicks| && kicks[i].baseline ==> marked[i].baseline
    ensures Streak(after, marked) <= Streak(rows, kicks)
  {
    hide ClassifyRound, Alike1;
    if |kicks| > 0 {
      RoundAlike(marked[0], kicks[0], after, rows);
      StreakShrinks(rows, after, kicks[1..], marked[1..]);
    }
  }

  lemma MarkedSettled(rows: seq<Row>, after: seq<Row>, kicks: seq<Row>, marked: seq<Row>, id: int)
    requires Alike(after, rows) && |marked| == |kicks| && SettledBelow(rows, kicks)
    requires forall i :: 0 <= i < |kicks| ==>
             marked[i] == if kicks[i].id == id then kicks[i].(baseline := true) else kicks[i]
    requires forall k :: k in kicks && k.id == id ==> Frozen(rows, k)
    ensures SettledBelow(after, marked)
  {
    hide Frozen, Alike;
    forall i | 0 <= i < |kicks| && (i > 0 || marked[i].baseline) ensures Frozen(after, marked[i]) {
      assert kicks[i] in kicks;
      FrozenAlike(rows, after, kicks[i], marked[i]);
    }
  }

  lemma MarkedBounded(rows: seq<Row>, after: seq<Row>, kicks: seq<Row>, marked: seq<Row>, n: nat)
    requires Alike(after, rows) && Alike(marked, kicks) && Bounded(rows, kicks, n)
    requires forall i :: 0 <= i < |kicks| && kicks[i].baseline ==> marked[i].baseline
    ensures Bounded(after, marked, n)
  {
    hide Streak, Alike1;
    forall i | 0 < i <= |kicks| ensures Streak(after, marked[i..]) <= n {
      StreakShrinks(rows, after, kicks[i..], marked[i..]);
    }
  }

  /** The kick a plan baselines is frozen. */
  lemma ClearedFrozen(rows: seq<Row>)
    requires Ascending(rows) && PlanClear(rows).Ok?
    ensures forall k :: k in KicksNewestFirst(rows) && k.id == PlanClear(rows).value.baselineKickId ==> Frozen(rows, k)
  {
    var plan, kicks := PlanClear(rows).value, KicksNewestFirst(rows);
    PlanShape(CurrentRounds(rows), []);
    CurrentKicks(rows);
    RoundIds(rows);
    var j := |plan.newerKickIds|;
    RoundOutcome(rows, j);
    hide CurrentRounds, AllRounds, PlanFrom, ClassifyRound, Frozen;
    assert CurrentRounds(rows)[j] == AllRounds(rows)[j];
    CompletedFrozen(rows, kicks[j]);
    KickMembers(rows);
    hide KicksNewestFirst;
    forall k | k in kicks && k.id == plan.baselineKickId ensures Frozen(rows, k) {
      assert kicks[j] in kicks;
      var x :| 0 <= x < |rows| && rows[x] == k;
      var y :| 0 <= y < |rows| && rows[y] == kicks[j];
    }
  }
}
