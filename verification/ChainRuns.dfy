/** Guarded runs whose receipts and settlements are applied in chain order: every link such
    a run makes is the one the batch scan would make, but for recoveries of rounds already
    over and rows without evidence, so rebuilding never revises a settled round upward. */
module ChainRuns {
  import opened Common
  import opened Rounds
  import opened PairHistory
  import opened Guard
  import opened Baselines
  import opened SuspensionClear
  import opened KickTable
  import opened RoundLinks
  import opened LinkLaws
  import opened Receipts
  import opened ReceiptLaws
  import opened FrozenRounds
  import opened GuardRuns
  import opened ChainLinks

  // ------------------------------------------------------- the whole invariant

  ghost predicate ChainInv(g: Setting, s: State) {
    Inv(g, s) && Chained(s.rows) && Judged(s.rows, KicksNewestFirst(s.rows))
  }

  /** Every confirmed row carries its evidence. */
  ghost predicate Evident(g: Setting, rows: seq<Row>) {
    forall r :: r in rows && r.status.Confirmed? ==> Decoded1(g, r)
  }

  lemma InvSane(g: Setting, s: State)
    requires Inv(g, s)
    ensures Sane(s.rows)
    ensures forall r :: r in s.rows ==> OfPair(r, g.auction, g.token)
  {
    hide KicksNewestFirst, SettledBelow, Bounded, Stamped, HasClose;
    TidyPair(g, s);
    forall r | r in s.rows ensures (r.op.Kick? ==> r.link.None?) && (r.status.Confirmed? ==> r.Position().Some?) {
      assert OwnRow(g, s.nextId, r);
      if r.status.Confirmed? {
        StampedPlaced(g, r);
      }
    }
    forall a, b | Kicked(s.rows, a) && Kicked(s.rows, b) && !HasClose(s.rows, a.id) && !HasClose(s.rows, b.id)
      ensures a == b
    {
      AtMostOneOpen(g, s, a, b);
    }
  }

  lemma HeadOnly(g: Setting, s: State, a: Row, b: Row)
    requires Inv(g, s) && a in s.rows && b in s.rows && ActiveKick(a) && ActiveKick(b)
    requires !Frozen(s.rows, a) && !Frozen(s.rows, b)
    ensures a == b
  {
    hide KicksNewestFirst, Frozen, Bounded, Tidy;
    KickMembers(s.rows);
    var kicks := KicksNewestFirst(s.rows);
    var i :| 0 <= i < |kicks| && kicks[i] == a;
    var j :| 0 <= j < |kicks| && kicks[j] == b;
  }

  /** A round some recovery in flight names is the only one that can be unclosed. */
  lemma NamedFits(g: Setting, s: State, was: Row, k: Row)
    requires Inv(g, s) && was in s.rows && was.status.Submitted? && was.link == Some(k.id) && Kicked(s.rows, k)
    ensures !HasClose(s.rows, k.id) || AllClosed(s.rows)
  {
    hide Inv, HasClose;
    assert InFlight(s.rows, k.id);
    forall m | Kicked(s.rows, m) && !HasClose(s.rows, m.id) ensures m == k {
      HeadOnly(g, s, k, m);
    }
  }

  /** What the lookup before a position after every kick finds. */
  lemma LookupFits(g: Setting, s: State, pos: Pos)
    requires Inv(g, s) && forall k :: Kicked(s.rows, k) ==> At(k).Before(pos)
    ensures var k := LatestUnclosedKick(s.rows, g.auction, g.token, Some(pos));
            if k.Some? then Kicked(s.rows, k.value) && !HasClose(s.rows, k.value.id) else AllClosed(s.rows)
  {
    hide LatestUnclosedKick, Inv;
    InvSane(g, s);
    var k := LatestUnclosedKick(s.rows, g.auction, g.token, Some(pos));
    forall m | Kicked(s.rows, m)
      ensures Candidate(s.rows, g.auction, g.token, Some(pos), m) <==> !HasClose(s.rows, m.id)
    {
      SameCloses(g, s.rows, m.id);
    }
  }

  lemma SameCloses(g: Setting, rows: seq<Row>, id: int)
    requires forall r :: r in rows ==> OfPair(r, g.auction, g.token)
    ensures HasConfirmedClose(rows, g.auction, g.token, id) <==> HasClose(rows, id)
  {
  }

  /** The chain has room for a row of this id at this position: everything confirmed comes
      no later, and kicks strictly apart. */
  ghost predicate Lands(rows: seq<Row>, r: Row, pos: Pos) {
    forall x :: x in rows && Placed(x) ==>
      At(x).Before(pos) || (At(x) == pos && x.id < r.id && !x.op.Kick? && !r.op.Kick?)
  }

  /** The link a submitted recovery ends with, by what its receipt says. */
  lemma FinalizedLink(table: seq<Row>, receipt: Receipt, d: Decoded, was: Row)
    requires (was.op.Resolve? || was.op.Sweep?) && was.path.None?
    ensures var row, k := Finalized(table, receipt, d, was),
                        LatestUnclosedKick(table, was.auction, was.token, Some(receipt.pos));
            if row.link.None? then Path0(row) || Blank(row) || (was.link.None? && k.None?)
            else !Path0(row) && (row.link == was.link || (was.link.None? && k.Some? && row.link == Some(k.value.id)))
  {
    hide LatestUnclosedKick, FirstResolve, FirstSweep;
  }

  lemma FinalizedFits(g: Setting, s: State, tx: string, was: Row)
    requires Inv(g, s) && Aimed(s.rows) && was in s.rows && was.status.Submitted? && IsRecovery(was)
    requires Lands(s.rows, was, g.chain(tx).pos)
    ensures LinkFits(s.rows, Finalized(s.rows, TheReceipt(g, tx), g.events(tx), was))
  {
    hide LatestUnclosedKick, Finalized, SettledBelow, Bounded, KicksNewestFirst, HasClose, AllClosed, Path0, Blank;
    assert OwnRow(g, s.nextId, was);
    LookupFits(g, s, g.chain(tx).pos);
    FinalizedLink(s.rows, TheReceipt(g, tx), g.events(tx), was);
    if was.link.Some? {
      var k :| Kicked(s.rows, k) && k.id == was.link.value;
      NamedFits(g, s, was, k);
    }
  }

  /** The kick in flight is the newest, and every other is closed. */
  lemma KickFits(g: Setting, s: State, i: nat)
    requires Inv(g, s) && i < |s.rows| && s.rows[i].status.Submitted? && s.rows[i].op.Kick?
    ensures AllClosed(s.rows)
    ensures forall x :: Kicked(s.rows, x) ==> Older(x, s.rows[i])
  {
    var kicks := KicksNewestFirst(s.rows);
    TidyPair(g, s);
    ThawedIsHead(s.rows, i);
    HeadIsNewest(s.rows, i);
    hide Bounded, KicksNewestFirst, Older, Tidy, SettledBelow;
    forall x | Kicked(s.rows, x) ensures HasClose(s.rows, x.id) && Older(x, s.rows[i]) {
      var j :| 0 <= j < |s.rows| && s.rows[j] == x;
      if !Frozen(s.rows, x) {
        assert !Frozen(s.rows, s.rows[i]);
        HeadOnly(g, s, x, s.rows[i]);
      }
    }
  }

  // ---------------------------------------------------------------- evidence

  lemma SettledMoved(kicks: seq<Row>, moved: seq<Row>, k: Row)
    requires KicksMoved(kicks, moved) && SettledKick(moved, k) && !k.baseline
    ensures SettledKick(kicks, k)
  {
    var i :| 0 < i < |moved| && moved[i] == k;
    var d := |kicks| - |moved|;
    assert d == 1 ==> kicks[1..][i] == kicks[i + 1];
    assert d == 0 ==> moved[1..][i - 1] == moved[i] && kicks[1..][i - 1] == kicks[i];
    assert kicks[i + d] == k;
  }

  /** Every taint of before is one still. */
  ghost predicate TaintsKept(rows: seq<Row>, after: seq<Row>) {
    forall k :: Tainted(rows, k) ==> Tainted(after, k)
  }

  lemma JudgedMoved(rows: seq<Row>, after: seq<Row>, kicks: seq<Row>, moved: seq<Row>)
    requires SettledBelow(rows, kicks) && Judged(rows, kicks)
    requires FrozenKept(rows, after) && TaintsKept(rows, after) && KicksMoved(kicks, moved)
    ensures Judged(after, moved)
  {
    hide ClassifyRound, Frozen, KicksMoved, SettledKick, SettledBelow, Tainted;
    forall k | SettledKick(moved, k) && !k.baseline ensures ClassifyRound(k, after).Completed() || Tainted(after, k) {
      SettledMoved(kicks, moved, k);
      SettledIsFrozen(rows, kicks, k);
    }
  }

  lemma LandedTaints(rows: seq<Row>, after: seq<Row>, row: Row)
    requires Landed(rows, after, row)
    ensures TaintsKept(rows, after)
  {
    hide OpensFor, Blank;
    forall k | Tainted(rows, k) ensures Tainted(after, k) {
      var b :| Recovered(rows, b) && Blank(b) && b.link == Some(k.id) && OpensFor(rows, b, k);
      assert Recovered(after, b);
      hide Landed;
      LandedStays(rows, after, row, b);
    }
  }

  lemma SameTaints(rows: seq<Row>, after: seq<Row>)
    requires SameRecord(rows, after)
    ensures TaintsKept(rows, after)
  {
    hide OpensFor, Blank;
    forall k | Tainted(rows, k) ensures Tainted(after, k) {
      var b :| Recovered(rows, b) && Blank(b) && b.link == Some(k.id) && OpensFor(rows, b, k);
      SameOpen(rows, after, b, k);
      assert Recovered(after, b);
    }
  }

  // ------------------------------------------------------------ landing rows

  lemma UpdateLands(rows: seq<Row>, was: Row, row: Row)
    requires Ascending(rows) && was in rows && was.status.Submitted? && row.id == was.id && Placed(row)
    requires row.op == was.op && Lands(rows, was, At(row))
    requires forall x :: x in rows && x.status.Confirmed? ==> x.Position().Some?
    ensures Landed(rows, SetRow(rows, row), row)
    ensures forall x: Row :: x in SetRow(rows, row) && x.status.Submitted? ==> x in rows
  {
    hide SetRow;
    SetPresent(rows, row, was);
    if row in rows {
      SameIdSame(rows, row, was);
    }
    forall x | x in rows && x.status.Confirmed? ensures x.id != was.id {
      SameIdSame(rows, x, was);
    }
  }

  /** A submitted row gets its receipt, in chain order. */
  lemma LandKeeps(g: Setting, s: State, tx: string, was: Row)
    requires ChainInv(g, s) && was in s.rows && was.status.Submitted? && was.tx == Some(tx) && g.chain(tx).ok
    requires Lands(s.rows, was, g.chain(tx).pos)
    ensures ChainInv(g, State(SetRow(s.rows, Finalized(s.rows, TheReceipt(g, tx), g.events(tx), was)), s.nextId))
  {
    hide Finalized, SetRow, Chained, Judged, Sane, KicksNewestFirst;
    var row := Finalized(s.rows, TheReceipt(g, tx), g.events(tx), was);
    var after := SetRow(s.rows, row);
    FinalizeKeeps(g, s, tx, was);
    FinalizedKeepsId(s.rows, TheReceipt(g, tx), g.events(tx), was);
    InvSane(g, s);
    SaneFacts(s.rows);
    UpdateLands(s.rows, was, row);
    LandFits(g, s, tx, was);
    hide Inv, Lands;
    LandingChained(s.rows, after, row);
    LandJudged(g, s, tx, was);
  }

  lemma SaneFacts(rows: seq<Row>)
    requires Sane(rows)
    ensures Ascending(rows) && forall x :: x in rows && x.status.Confirmed? ==> x.Position().Some?
  {
  }

  lemma LandFits(g: Setting, s: State, tx: string, was: Row)
    requires ChainInv(g, s) && was in s.rows && was.status.Submitted? && was.tx == Some(tx) && g.chain(tx).ok
    requires Lands(s.rows, was, g.chain(tx).pos)
    ensures Fits(s.rows, Finalized(s.rows, TheReceipt(g, tx), g.events(tx), was))
  {
    hide Finalized, Attributed, KicksApart, MarksClose, Judged, KicksNewestFirst, SettledBelow, Bounded, HasClose,
         LinkFits, Lands;
    var row := Finalized(s.rows, TheReceipt(g, tx), g.events(tx), was);
    FinalizedKeepsId(s.rows, TheReceipt(g, tx), g.events(tx), was);
    InvSane(g, s);
    var i :| 0 <= i < |s.rows| && s.rows[i] == was;
    if was.op.Kick? {
      KickFits(g, s, i);
    } else {
      assert IsRecovery(was);
      FinalizedFits(g, s, tx, was);
    }
  }

  lemma LandJudged(g: Setting, s: State, tx: string, was: Row)
    requires ChainInv(g, s) && was in s.rows && was.status.Submitted? && was.tx == Some(tx) && g.chain(tx).ok
    requires var row := Finalized(s.rows, TheReceipt(g, tx), g.events(tx), was);
             Landed(s.rows, SetRow(s.rows, row), row)
    ensures var after := SetRow(s.rows, Finalized(s.rows, TheReceipt(g, tx), g.events(tx), was));
            Judged(after, KicksNewestFirst(after))
  {
    hide Finalized, Chained, Judged, KicksNewestFirst, SettledBelow, Bounded, Landed, OwnRow, FrozenKept, KicksMoved,
         Attachable;
    var row := Finalized(s.rows, TheReceipt(g, tx), g.events(tx), was);
    FinalizedOwn(g, s, tx, was);
    var i := TidyUpdate(g, s, was, row);
    TidyPair(g, s);
    UpdateFreezes(s.rows, i, row);
    ThawedUpdateKicks(s.rows, i, row);
    LandedTaints(s.rows, s.rows[i := row], row);
    JudgedMoved(s.rows, s.rows[i := row], KicksNewestFirst(s.rows), KicksNewestFirst(s.rows[i := row]));
  }

  /** Receiving a confirmed row again finds nothing to add. */
  lemma ReplayStill(g: Setting, s: State, tx: string, was: Row)
    requires ChainInv(g, s) && was in s.rows && was.status.Confirmed? && was.tx == Some(tx) && Decoded1(g, was)
    ensures Finalized(s.rows, TheReceipt(g, tx), g.events(tx), was) == was
  {
    hide Stamp, LatestUnclosedKick, KicksNewestFirst, SettledBelow, Bounded, Judged, Chained, FirstResolve, FirstSweep;
    var receipt, d := TheReceipt(g, tx), g.events(tx);
    assert OwnRow(g, s.nextId, was);
    StampedPlaced(g, was);
    hide Inv;
    RefinalizeIff(s.rows, receipt, d, was);
    if was.link.None? && WantsRound(was, d) {
      WantsEvidence(receipt, d, was);
      UnlinkedStays(g, s, was);
    }
  }

  lemma WantsEvidence(receipt: Receipt, d: Decoded, r: Row)
    requires Stamp(receipt, d, r) == r && WantsRound(r, d)
    ensures IsRecovery(r) && !Path0(r) && !Blank(r)
  {
  }

  /** An unlinked recovery with evidence had no open round, and has none now. */
  lemma UnlinkedStays(g: Setting, s: State, r: Row)
    requires ChainInv(g, s) && Recovered(s.rows, r) && r.link.None? && !Path0(r) && !Blank(r)
    ensures LatestUnclosedKick(s.rows, r.auction, r.token, r.Position()).None?
  {
    hide LatestUnclosedKick, Inv, Judged, CanonClosed, HasConfirmedClose;
    InvSane(g, s);
    assert NoneOpen(s.rows, r) by { assert Attributed1(s.rows, r); }
    var k := LatestUnclosedKick(s.rows, r.auction, r.token, r.Position());
    assert r.auction == g.auction && r.token == g.token;
    if k.Some? {
      assert Kicked(s.rows, k.value);
      SameCloses(g, s.rows, k.value.id);
      LastMark(s.rows, r, k.value);
      assert false;
    }
  }

  /** An unclosed kick is the last mark, so it is open for whatever comes after it. */
  lemma LastMark(rows: seq<Row>, r: Row, k: Row)
    requires MarksClose(rows) && Kicked(rows, k) && !HasClose(rows, k.id) && Recovered(rows, r) && ChainLess(k, r)
    requires forall x :: x in rows ==> x.SamePair(r) && !x.op.OtherOp?
    ensures OpensFor(rows, r, k)
  {
    forall x | x in rows && OnChain(x, r.auction, r.token) && IsMark(x) && ChainLess(x, r) ensures !ChainLess(k, x) {
      if ChainLess(k, x) {
        CanonIsClosed(rows, k);
      }
    }
  }

  // ---------------------------------------------------------------- receipts

  /** Each row still submitted has room on the chain, and a kick is the only one. */
  ghost predicate OrderedTodo(rows: seq<Row>, todo: seq<Row>, pos: Pos) {
    && Ascending(todo)
    && (forall r :: r in todo && r.status.Submitted? ==> Lands(rows, r, pos))
    && (forall r, q :: r in todo && q in todo && r.status.Submitted? && q.status.Submitted? && r != q ==> !r.op.Kick?)
  }

  lemma TodoNext(rows: seq<Row>, todo: seq<Row>, pos: Pos, row: Row)
    requires OrderedTodo(rows, todo, pos) && |todo| > 0 && Ascending(rows) && todo[0] in rows
    requires row.id == todo[0].id && row.op == todo[0].op
    requires row == todo[0] || (todo[0].status.Submitted? && (Placed(row) ==> At(row) == pos))
    ensures OrderedTodo(SetRow(rows, row), todo[1..], pos)
  {
    hide SetRow;
    SetPresent(rows, row, todo[0]);
    assert todo == [todo[0]] + todo[1..];
    forall i, j | 0 <= i < j < |todo[1..]| ensures todo[1..][i].id < todo[1..][j].id {
      assert todo[i + 1].id < todo[j + 1].id;
    }
    forall r | r in todo[1..] && r.status.Submitted? ensures Lands(SetRow(rows, row), r, pos) {
      var j :| 0 <= j < |todo[1..]| && todo[1..][j] == r;
      assert todo[0].id < todo[j + 1].id;
      assert Lands(rows, r, pos);
    }
  }

  lemma SetEvident(g: Setting, rows: seq<Row>, was: Row, row: Row)
    requires Ascending(rows) && was in rows && row.id == was.id && Evident(g, rows) && Decoded1(g, row)
    ensures Evident(g, SetRow(rows, row))
  {
    hide SetRow, Decoded1;
    SetPresent(rows, row, was);
  }

  lemma FinalizedEvident(g: Setting, rows: seq<Row>, tx: string, was: Row)
    requires was.tx == Some(tx)
    ensures Decoded1(g, Finalized(rows, TheReceipt(g, tx), g.events(tx), was))
  {
    hide Finalized, Final;
    FinalizedIsFinal(rows, TheReceipt(g, tx), g.events(tx), was);
    FinalizedKeepsId(rows, TheReceipt(g, tx), g.events(tx), was);
  }

  lemma {:induction false} ChainPass(g: Setting, s: State, tx: string, todo: seq<Row>)
    requires ChainInv(g, s) && InTable(s.rows, todo) && g.chain(tx).ok && forall r :: r in todo ==> r.tx == Some(tx)
    requires OrderedTodo(s.rows, todo, g.chain(tx).pos) && Evident(g, s.rows)
    ensures var after := FinalizeRows(s.rows, TheReceipt(g, tx), g.events(tx), todo);
            ChainInv(g, State(after, s.nextId)) && Evident(g, after)
    decreases |todo|
  {
    if |todo| > 0 {
      InvAscending(g, s);
      var receipt, d := TheReceipt(g, tx), g.events(tx);
      var was := todo[0];
      FirstInTable(s.rows, todo);
      var row := Finalized(s.rows, receipt, d, was);
      NeverSetAside(g, s, tx, was);
      assert was.status.Confirmed? ==> Decoded1(g, was);
      hide ChainInv, Finalized, InTable, OrderedTodo, Decoded1, Evident;
      Advance(s.rows, receipt, d, todo);
      FinalizedKeepsId(s.rows, receipt, d, was);
      FinalizedEvident(g, s.rows, tx, was);
      SetEvident(g, s.rows, was, row);
      if was.status.Submitted? {
        LandsOfTodo(s.rows, todo, receipt.pos);
        LandKeeps(g, s, tx, was);
      } else {
        ReplayStill(g, s, tx, was);
        SetPresent(s.rows, row, was);
        assert State(s.rows, s.nextId) == s;
      }
      TodoNext(s.rows, todo, receipt.pos, row);
      ChainPass(g, State(SetRow(s.rows, row), s.nextId), tx, todo[1..]);
    }
  }

  lemma LandsOfTodo(rows: seq<Row>, todo: seq<Row>, pos: Pos)
    requires OrderedTodo(rows, todo, pos) && |todo| > 0 && todo[0].status.Submitted?
    ensures Lands(rows, todo[0], pos)
  {
    hide Lands;
    assert todo[0] in todo;
  }

  lemma NeverSetAside(g: Setting, s: State, tx: string, was: Row)
    requires ChainInv(g, s) && was in s.rows && was.tx == Some(tx) && g.chain(tx).ok
    ensures was.status.Submitted? || was.status.Confirmed?
  {
    assert OwnRow(g, s.nextId, was);
  }

  lemma RevertRecord(rows: seq<Row>, was: Row, row: Row)
    requires Ascending(rows) && was in rows && was.status.Submitted? && row.id == was.id && row.status.OtherStatus?
    ensures SameRecord(rows, SetRow(rows, row))
  {
    hide SetRow;
    SetPresent(rows, row, was);
    forall x | x in rows && x.status.Confirmed? ensures x.id != was.id {
      SameIdSame(rows, x, was);
    }
  }

  lemma RevertJudged(g: Setting, s: State, was: Row, row: Row)
    requires ChainInv(g, s) && was in s.rows && was.status.Submitted? && row.id == was.id && SameIdentity(row, was)
    requires row.link == was.link && SameRecord(s.rows, SetRow(s.rows, row))
    ensures Judged(SetRow(s.rows, row), KicksNewestFirst(SetRow(s.rows, row)))
  {
    hide SetRow, Judged, KicksNewestFirst, SettledBelow, Bounded, Chained, FrozenKept, KicksMoved, Tidy, SameRecord;
    InvAscending(g, s);
    var i :| 0 <= i < |s.rows| && s.rows[i] == was;
    SetIsUpdate(s.rows, i, row);
    SameTaints(s.rows, SetRow(s.rows, row));
    UpdateFreezes(s.rows, i, row);
    ThawedUpdateKicks(s.rows, i, row);
    JudgedMoved(s.rows, s.rows[i := row], KicksNewestFirst(s.rows), KicksNewestFirst(s.rows[i := row]));
  }

  lemma RevertKeeps(g: Setting, s: State, tx: string, was: Row)
    requires ChainInv(g, s) && was in s.rows && was.tx == Some(tx) && !g.chain(tx).ok
    ensures ChainInv(g, State(SetRow(s.rows, Receipts.Mined(was, TheReceipt(g, tx), OtherStatus)), s.nextId))
  {
    var row := Receipts.Mined(was, TheReceipt(g, tx), OtherStatus);
    InvAscending(g, s);
    if was.status.Submitted? {
      hide SetRow, Judged, Inv, Chained, SameRecord;
      MineKeeps(g, s, tx, OtherStatus, was);
      RevertRecord(s.rows, was, row);
      SameChained(s.rows, SetRow(s.rows, row));
      RevertJudged(g, s, was, row);
    } else {
      assert OwnRow(g, s.nextId, was);
      SetPresent(s.rows, row, was);
      assert State(s.rows, s.nextId) == s;
    }
  }

  lemma {:induction false} RevertPass(g: Setting, s: State, tx: string, todo: seq<Row>)
    requires ChainInv(g, s) && InTable(s.rows, todo) && !g.chain(tx).ok && forall r :: r in todo ==> r.tx == Some(tx)
    ensures ChainInv(g, State(MineRows(s.rows, TheReceipt(g, tx), OtherStatus, todo), s.nextId))
    decreases |todo|
  {
    if |todo| > 0 {
      InvAscending(g, s);
      hide ChainInv, InTable, SetRow;
      var row := Receipts.Mined(todo[0], TheReceipt(g, tx), OtherStatus);
      FirstInTable(s.rows, todo);
      MineAdvance(s.rows, todo, row);
      RevertKeeps(g, s, tx, todo[0]);
      RevertPass(g, State(SetRow(s.rows, row), s.nextId), tx, todo[1..]);
    }
  }

  // -------------------------------------------------------------- settlements

  /** The rows after the first `n` were confirmed no earlier than everything before them. */
  ghost predicate OrderedTail(t: seq<Row>, n: nat) {
    forall i, j :: n <= i < |t| && 0 <= j < i && Placed(t[j]) ==> !At(t[i]).Before(At(t[j]))
  }

  lemma CloseLands(g: Setting, s: State, row: Row, k: Row)
    requires ChainInv(g, s) && Placed(row) && row.op.Settled? && row.id == s.nextId
    requires Kicked(s.rows, k) && !HasClose(s.rows, k.id) && At(k).Before(At(row))
    requires forall x :: x in s.rows && Placed(x) ==> !At(row).Before(At(x))
    ensures Landed(s.rows, s.rows + [row], row)
  {
    hide Attributed, MarksClose, Aimed, Judged, KicksNewestFirst, SettledBelow, Bounded, HasClose, Older;
    TidyPair(g, s);
    InvSane(g, s);
    forall x | Kicked(s.rows, x) ensures At(x).Before(At(row)) {
      if x != k {
        EarlierKick(g, s, x, k);
      }
    }
  }

  /** The unclosed kick is the last one submitted and mined. */
  lemma EarlierKick(g: Setting, s: State, x: Row, k: Row)
    requires ChainInv(g, s) && Kicked(s.rows, k) && !HasClose(s.rows, k.id) && Kicked(s.rows, x) && x != k
    ensures At(x).Before(At(k))
  {
    hide Attributed, MarksClose, Aimed, Judged, KicksNewestFirst, SettledBelow, Bounded, HasClose;
    TidyPair(g, s);
    AtMostOneOpen(g, s, k, k);
    var i :| 0 <= i < |s.rows| && s.rows[i] == k;
    HeadIsNewest(s.rows, i);
    var j :| 0 <= j < |s.rows| && s.rows[j] == x;
    assert Older(x, k);
  }

  lemma ChainClose(g: Setting, s: State, it: CloseItem, row: Row)
    requires ChainInv(g, s) && FromChain(g, it)
    requires var close := NewClose(s.rows, it.receipt, it.d, it.e); close.Some? && row == close.value.(id := s.nextId)
    requires forall x :: x in s.rows && Placed(x) ==> !At(row).Before(At(x))
    ensures ChainInv(g, State(s.rows + [row], s.nextId + 1))
  {
    hide Chained, Judged, KicksNewestFirst, LatestUnclosedKick, HasExact, ResolvedPair, HasClose, FromChain,
         SettledBelow, Bounded, Tidy, FrozenKept, Fits, Landed;
    var k := LatestUnclosedKick(s.rows, it.e.auction, it.e.token, Some(it.receipt.pos)).value;
    InvSane(g, s);
    TidyPair(g, s);
    CloseKeeps(g, s, it, row);
    NewCloseAttaches(g, s, it, row);
    assert OfPair(k, g.auction, g.token);
    SameCloses(g, s.rows, k.id);
    assert Kicked(s.rows, k);
    CloseLands(g, s, row, k);
    assert Fits(s.rows, row) by { CloseFits(s.rows, row, k); }
    var after := s.rows + [row];
    LandingChained(s.rows, after, row);
    LandedTaints(s.rows, after, row);
    AppendFreezes(s.rows, row);
    KicksAppend(s.rows, row);
    SameKicks(KicksNewestFirst(s.rows));
    JudgedMoved(s.rows, after, KicksNewestFirst(s.rows), KicksNewestFirst(after));
  }

  lemma CloseFits(rows: seq<Row>, row: Row, k: Row)
    requires Sane(rows) && row.op.Settled? && row.link == Some(k.id) && Kicked(rows, k) && !HasClose(rows, k.id)
    requires k.SamePair(row)
    ensures Fits(rows, row)
  {
    hide HasClose;
    forall x | x in rows ensures x.SamePair(row) {
      assert x.SamePair(k);
    }
  }

  lemma {:induction false} ChainSettle(g: Setting, s: State, items: seq<CloseItem>)
    requires ChainInv(g, s) && forall it :: it in items ==> FromChain(g, it)
    requires OrderedTail(SettleAll(s.rows, s.nextId, items), |s.rows|)
    ensures var t := SettleAll(s.rows, s.nextId, items); ChainInv(g, State(t, s.nextId + |t| - |s.rows|))
    decreases |items|
  {
    hide NewClose, ChainInv, FromChain;
    if |items| == 0 {
      assert State(s.rows, s.nextId) == s;
    } else {
      assert items[0] in items && forall it :: it in items[1..] ==> it in items;
      var close := NewClose(s.rows, items[0].receipt, items[0].d, items[0].e);
      if close.None? {
        ChainSettle(g, s, items[1..]);
      } else {
        var row := close.value.(id := s.nextId);
        var t := SettleAll(s.rows, s.nextId, items);
        FirstOfTail(s.rows, row, t);
        ChainClose(g, s, items[0], row);
        ChainSettle(g, State(s.rows + [row], s.nextId + 1), items[1..]);
      }
    }
  }

  lemma FirstOfTail(rows: seq<Row>, row: Row, t: seq<Row>)
    requires OrderedTail(t, |rows|) && rows + [row] <= t
    ensures forall x :: x in rows && Placed(x) ==> !At(row).Before(At(x))
    ensures OrderedTail(t, |rows + [row]|)
  {
    assert t[|rows|] == (rows + [row])[|rows|] == row;
    forall x | x in rows && Placed(x) ensures !At(row).Before(At(x)) {
      var j :| 0 <= j < |rows| && rows[j] == x;
      assert t[j] == (rows + [row])[j] == x;
    }
  }

  // ------------------------------------------------------------ new submissions

  lemma SubmittedRecord(rows: seq<Row>, row: Row)
    requires row.status.Submitted? && (row.link.Some? ==> exists k :: Kicked(rows, k) && k.id == row.link.value)
    ensures SameRecord(rows, rows + [row])
  {
  }

  lemma ChainRecovery(g: Setting, s: State, recovery: Row)
    requires ChainInv(g, s) && Enabled(g, s, SubmitRecovery(recovery))
    ensures ChainInv(g, Next(g, s, SubmitRecovery(recovery)))
  {
    hide Chained, Judged, KicksNewestFirst, LatestUnclosedKick, SettledBelow, Bounded, Attachable, FrozenKept,
         SameRecord;
    var row := recovery.(id := s.nextId);
    RecoveryKeeps(g, s, recovery);
    InvSane(g, s);
    LookupAttachable(g, s, None);
    NoLinkAttaches(s.rows);
    SubmittedRecord(s.rows, row);
    SameChained(s.rows, s.rows + [row]);
    SameTaints(s.rows, s.rows + [row]);
    AppendFreezes(s.rows, row);
    KicksAppend(s.rows, row);
    SameKicks(KicksNewestFirst(s.rows));
    JudgedMoved(s.rows, s.rows + [row], KicksNewestFirst(s.rows), KicksNewestFirst(s.rows + [row]));
  }

  lemma ChainKick(g: Setting, s: State, kick: Row, now: int)
    requires ChainInv(g, s) && Enabled(g, s, SubmitKick(kick, now))
    ensures ChainInv(g, Next(g, s, SubmitKick(kick, now)))
  {
    hide Chained, Judged, KicksNewestFirst, SettledBelow, Bounded, FrozenKept, SameRecord, Decide, NotBefore, Older,
         Attachable;
    var row := kick.(id := s.nextId);
    KickKeeps(g, s, kick, now);
    NoLinkAttaches(s.rows);
    SubmittedRecord(s.rows, row);
    SameChained(s.rows, s.rows + [row]);
    SameTaints(s.rows, s.rows + [row]);
    AppendFreezes(s.rows, row);
    KicksAppend(s.rows, row);
    YoungestKick(g, s, row);
    InsertInFront(s.rows, row);
    HeadJudged(g, s, now);
    AllJudged(s.rows, s.rows + [row], KicksNewestFirst(s.rows), row);
  }

  /** What the guard allows leaves the newest round judged, like those below it. */
  lemma HeadJudged(g: Setting, s: State, now: int)
    requires Inv(g, s) && Decide(s.rows, g.delays, now, false).action.Allow?
    ensures var kicks := KicksNewestFirst(s.rows);
            |kicks| > 0 ==>
            Frozen(s.rows, kicks[0]) && (kicks[0].baseline || ClassifyRound(kicks[0], s.rows).Completed())
  {
    var kicks, current := KicksNewestFirst(s.rows), CurrentRounds(s.rows);
    InvAscending(g, s);
    AllowedMeans(g, s, now);
    CurrentKicks(s.rows);
    AllowsIff(current, g.delays, now);
    hide KicksNewestFirst, CurrentRounds, ClassifyRound, AllRounds, Inv, Judge, Frozen;
    if |kicks| > 0 && |current| > 0 {
      assert current[0] == AllRounds(s.rows)[0];
      RoundOutcome(s.rows, 0);
    }
  }

  lemma AllJudged(rows: seq<Row>, after: seq<Row>, kicks: seq<Row>, row: Row)
    requires SettledBelow(rows, kicks) && Judged(rows, kicks) && FrozenKept(rows, after) && TaintsKept(rows, after)
    requires !row.baseline
    requires |kicks| > 0 ==> Frozen(rows, kicks[0]) && (kicks[0].baseline || ClassifyRound(kicks[0], rows).Completed())
    ensures Judged(after, [row] + kicks)
  {
    hide ClassifyRound, Frozen, Tainted;
    var moved := [row] + kicks;
    forall k | SettledKick(moved, k) && !k.baseline ensures ClassifyRound(k, after).Completed() || Tainted(after, k) {
      var i :| 0 < i < |moved| && moved[i] == k;
      assert kicks[i - 1] == k;
      assert i > 1 ==> SettledKick(kicks, k);
    }
  }

  lemma ChainClear(g: Setting, s: State)
    requires ChainInv(g, s) && Enabled(g, s, ClearSuspension)
    ensures ChainInv(g, Next(g, s, ClearSuspension))
  {
    hide Inv, Chained, Judged, KicksNewestFirst, PlanClear, MarkBaseline, Alike;
    var id := PlanClear(s.rows).value.baselineKickId;
    var after := MarkBaseline(s.rows, id);
    ClearKeeps(g, s);
    InvAscending(g, s);
    MarkedChained(s.rows, after);
    MarkedKicks(s.rows, id);
    KickMembers(s.rows);
    KickMembers(after);
    MarkedJudged(s.rows, after, KicksNewestFirst(s.rows), KicksNewestFirst(after));
  }

  // ---------------------------------------------------------- rebuilding again

  lemma RelinkRestrained(g: Setting, s: State, rebuilt: seq<Row>)
    requires ChainInv(g, s) && Relinked(s.rows, rebuilt, g.auction, g.token)
    ensures Restrained(s.rows, rebuilt) && Judged(rebuilt, KicksNewestFirst(s.rows))
  {
    hide ClassifyRound, KicksNewestFirst, Relinked, Frozen, ChainInv, Tainted, SettledKick;
    var kicks := KicksNewestFirst(s.rows);
    forall k | SettledKick(kicks, k)
      ensures Frozen(rebuilt, k)
      ensures !k.baseline ==> ClassifyRound(k, rebuilt).Completed() || Tainted(rebuilt, k)
      ensures !k.baseline && ClassifyRound(k, rebuilt).outcome.NoFill? ==> ClassifyRound(k, s.rows).outcome.NoFill?
    {
      SettledRound(g, s, rebuilt, k);
    }
  }

  lemma ChainFacts(g: Setting, s: State)
    requires ChainInv(g, s)
    ensures Ascending(s.rows) && forall r :: r in s.rows ==> OfPair(r, g.auction, g.token)
  {
    hide Chained, Judged, Inv;
    InvSane(g, s);
    InvAscending(g, s);
  }

  lemma AfterRelink(g: Setting, s: State, rebuilt: seq<Row>)
    ensures Next(g, s, Relink(rebuilt)).rows == rebuilt
  {
  }

  /** In a chained run a rebuild is always restrained, and keeps the invariant. */
  lemma ChainRelink(g: Setting, s: State, rebuilt: seq<Row>)
    requires ChainInv(g, s) && Relinked(s.rows, rebuilt, g.auction, g.token)
    ensures Restrained(s.rows, rebuilt)
    ensures ChainInv(g, Next(g, s, Relink(rebuilt)))
  {
    hide Inv, KicksNewestFirst, Relinked, Chained, Judged, Restrained, Next;
    RelinkRestrained(g, s, rebuilt);
    ChainFacts(g, s);
    AfterRelink(g, s, rebuilt);
    RebuiltKicks(s.rows, rebuilt, g.auction, g.token);
    RebuiltChained(s.rows, rebuilt, g.auction, g.token);
    RelinkKeeps(g, s, rebuilt);
  }

  lemma SettledRound(g: Setting, s: State, rebuilt: seq<Row>, k: Row)
    requires ChainInv(g, s) && Relinked(s.rows, rebuilt, g.auction, g.token) && SettledKick(KicksNewestFirst(s.rows), k)
    ensures Frozen(rebuilt, k)
    ensures !k.baseline ==> ClassifyRound(k, rebuilt).Completed() || Tainted(rebuilt, k)
    ensures !k.baseline && ClassifyRound(k, rebuilt).outcome.NoFill? ==> ClassifyRound(k, s.rows).outcome.NoFill?
  {
    InvSane(g, s);
    InvAscending(g, s);
    KickMembers(s.rows);
    SettledIsFrozen(s.rows, KicksNewestFirst(s.rows), k);
    hide ClassifyRound, KicksNewestFirst, Relinked, CanonClosed, Attributed, KicksApart, MarksClose, Aimed, Tainted,
         Tidy, SettledBelow, Bounded;
    assert Kicked(s.rows, k);
    ClosedIsCanon(s.rows, k);
    RebuiltClosed(s.rows, rebuilt, g.auction, g.token, k);
    CanonIsClosed(rebuilt, k);
    RebuiltSame(s.rows, rebuilt, g.auction, g.token);
    assert !InFlight(rebuilt, k.id);
    hide Frozen, SettledKick;
    if !k.baseline {
      assert ClassifyRound(k, s.rows).Completed() || Tainted(s.rows, k) by {
        JudgedOne(s.rows, KicksNewestFirst(s.rows), k);
      }
      RebuiltRound(s.rows, rebuilt, g.auction, g.token, k);
    }
  }

  lemma JudgedOne(rows: seq<Row>, kicks: seq<Row>, k: Row)
    requires Judged(rows, kicks) && SettledKick(kicks, k) && !k.baseline
    ensures ClassifyRound(k, rows).Completed() || Tainted(rows, k)
  {
    hide ClassifyRound, Tainted;
  }

  // ------------------------------------------------------------ main results

  /** The step applies receipts and settlements in chain order: each row it confirms comes
      after every row confirmed before it, and no kick shares its place with another. */
  ghost predicate LandsInOrder(g: Setting, s: State, step: Step) {
    match step
    case Receive(tx, decodes, accept) =>
      && (g.chain(tx).ok ==> OrderedTodo(s.rows, RowsOf(s.rows, tx, accept), g.chain(tx).pos))
      && OrderedTail(After(g, s, step), |s.rows|)
    case Discover(found) => OrderedTail(After(g, s, step), |s.rows|)
    case _ => true
  }

  /** Rows are confirmed with their evidence. */
  ghost predicate WithEvidence(g: Setting, s: State, step: Step) {
    step.Receive? && !step.decodes && g.chain(step.tx).ok ==>
      forall r :: r in RowsOf(s.rows, step.tx, step.accept) ==> !r.status.Submitted?
  }

  ghost predicate InOrder(g: Setting, s: State, step: Step) {
    LandsInOrder(g, s, step) && WithEvidence(g, s, step)
  }

  ghost predicate ChainOrdered(g: Setting, s: State, steps: seq<Step>) {
    |steps| > 0 ==>
      && ChainOrdered(g, s, steps[..|steps| - 1])
      && InOrder(g, Run(g, s, steps[..|steps| - 1]), steps[|steps| - 1])
  }

  lemma ChainEvents(g: Setting, s: State, tx: string, todo: seq<Row>)
    requires ChainInv(g, s) && InTable(s.rows, todo) && g.chain(tx).ok && forall r :: r in todo ==> r.tx == Some(tx)
    requires OrderedTodo(s.rows, todo, g.chain(tx).pos) && Evident(g, s.rows)
    requires OrderedTail(SettleAll(FinalizeRows(s.rows, TheReceipt(g, tx), g.events(tx), todo), s.nextId,
                                   ItemsOf(TheReceipt(g, tx), g.events(tx))), |s.rows|)
    ensures var t := SettleAll(FinalizeRows(s.rows, TheReceipt(g, tx), g.events(tx), todo), s.nextId,
                               ItemsOf(TheReceipt(g, tx), g.events(tx)));
            ChainInv(g, State(t, s.nextId + |t| - |s.rows|)) && Evident(g, t)
  {
    hide ChainInv, FinalizeRows, SettleAll, InTable, ItemsOf, FromChain, OrderedTodo, OrderedTail, Evident;
    ChainPass(g, s, tx, todo);
    EventsFromChain(g, tx);
    var mid := FinalizeRows(s.rows, TheReceipt(g, tx), g.events(tx), todo);
    ChainSettle(g, State(mid, s.nextId), ItemsOf(TheReceipt(g, tx), g.events(tx)));
    SettleEvident(g, mid, s.nextId, ItemsOf(TheReceipt(g, tx), g.events(tx)));
  }

  lemma CloseEvident(g: Setting, rows: seq<Row>, it: CloseItem, id: int)
    requires FromChain(g, it) && NewClose(rows, it.receipt, it.d, it.e).Some?
    ensures Decoded1(g, NewClose(rows, it.receipt, it.d, it.e).value.(id := id))
  {
    hide LatestUnclosedKick, Stamp;
    var tx :| it.receipt == TheReceipt(g, tx) && it.d == g.events(tx) && g.chain(tx).ok;
    CloseIsFinal(it.receipt, it.d, NewClose(rows, it.receipt, it.d, it.e).value.(id := id));
  }

  lemma {:induction false} SettleEvident(g: Setting, rows: seq<Row>, nextId: int, items: seq<CloseItem>)
    requires Evident(g, rows) && forall it :: it in items ==> FromChain(g, it)
    ensures Evident(g, SettleAll(rows, nextId, items))
    decreases |items|
  {
    hide NewClose, FromChain, Decoded1;
    if |items| > 0 {
      assert items[0] in items && forall it :: it in items[1..] ==> it in items;
      var close := NewClose(rows, items[0].receipt, items[0].d, items[0].e);
      if close.None? {
        SettleEvident(g, rows, nextId, items[1..]);
      } else {
        CloseEvident(g, rows, items[0], nextId);
        SettleEvident(g, rows + [close.value.(id := nextId)], nextId + 1, items[1..]);
      }
    }
  }

  /** A receipt without events changes nothing once all its rows are confirmed. */
  lemma {:induction false} MineNothing(g: Setting, s: State, tx: string, todo: seq<Row>)
    requires ChainInv(g, s) && InTable(s.rows, todo) && g.chain(tx).ok
    requires forall r :: r in todo ==> r.tx == Some(tx) && !r.status.Submitted?
    ensures MineRows(s.rows, TheReceipt(g, tx), Confirmed, todo) == s.rows
    decreases |todo|
  {
    if |todo| > 0 {
      InvAscending(g, s);
      hide Inv, Chained, Judged, SetRow;
      FirstInTable(s.rows, todo);
      var row := Receipts.Mined(todo[0], TheReceipt(g, tx), Confirmed);
      MineAdvance(s.rows, todo, row);
      MineKeeps(g, s, tx, Confirmed, todo[0]);
      SetPresent(s.rows, row, todo[0]);
      MineNothing(g, s, tx, todo[1..]);
    }
  }

  lemma RevertEvident(g: Setting, rows: seq<Row>, tx: string, todo: seq<Row>)
    requires Ascending(rows) && InTable(rows, todo) && Evident(g, rows)
    ensures Evident(g, MineRows(rows, TheReceipt(g, tx), OtherStatus, todo))
    decreases |todo|
  {
    if |todo| > 0 {
      hide SetRow, Decoded1;
      FirstInTable(rows, todo);
      var row := Receipts.Mined(todo[0], TheReceipt(g, tx), OtherStatus);
      MineAdvance(rows, todo, row);
      SetPresent(rows, row, todo[0]);
      RevertEvident(g, SetRow(rows, row), tx, todo[1..]);
    }
  }

  lemma ChainReady(g: Setting, s: State, tx: string, accept: int -> bool)
    requires ChainInv(g, s)
    ensures InTable(s.rows, RowsOf(s.rows, tx, accept))
    ensures forall r :: r in RowsOf(s.rows, tx, accept) ==> r.tx == Some(tx)
  {
    hide Inv, Chained, Judged, InTable, RowsOf;
    OwnRowsReady(g, s, tx, accept);
  }

  /** The state after a receipt, case by case. */
  lemma AfterReceive(g: Setting, s: State, tx: string, decodes: bool, accept: int -> bool)
    ensures var todo, receipt, t := RowsOf(s.rows, tx, accept), TheReceipt(g, tx),
                                   After(g, s, Receive(tx, decodes, accept));
            && Next(g, s, Receive(tx, decodes, accept)) == State(t, s.nextId + |t| - |s.rows|)
            && t == (if todo == [] then s.rows
                     else if !g.chain(tx).ok then MineRows(s.rows, receipt, OtherStatus, todo)
                     else if !decodes then MineRows(s.rows, receipt, Confirmed, todo)
                     else SettleAll(FinalizeRows(s.rows, receipt, g.events(tx), todo),
                                     s.nextId, ItemsOf(receipt, g.events(tx))))
  {
    hide FinalizeRows, SettleAll, MineRows, RowsOf, ItemsOf;
  }

  lemma ReceiveOrder(g: Setting, s: State, tx: string, decodes: bool, accept: int -> bool)
    requires InOrder(g, s, Receive(tx, decodes, accept))
    ensures g.chain(tx).ok ==> OrderedTodo(s.rows, RowsOf(s.rows, tx, accept), g.chain(tx).pos)
    ensures OrderedTail(After(g, s, Receive(tx, decodes, accept)), |s.rows|)
    ensures !decodes && g.chain(tx).ok ==> forall r :: r in RowsOf(s.rows, tx, accept) ==> !r.status.Submitted?
  {
    hide OrderedTodo, OrderedTail, After, RowsOf;
  }

  lemma ChainReverted(g: Setting, s: State, tx: string, todo: seq<Row>)
    requires ChainInv(g, s) && Evident(g, s.rows) && InTable(s.rows, todo) && !g.chain(tx).ok
    requires forall r :: r in todo ==> r.tx == Some(tx)
    ensures var t := MineRows(s.rows, TheReceipt(g, tx), OtherStatus, todo);
            ChainInv(g, State(t, s.nextId + |t| - |s.rows|)) && Evident(g, t)
  {
    ChainFacts(g, s);
    hide ChainInv, Evident, InTable, MineRows;
    RevertPass(g, s, tx, todo);
    RevertEvident(g, s.rows, tx, todo);
  }

  lemma ChainUndecoded(g: Setting, s: State, tx: string, todo: seq<Row>)
    requires ChainInv(g, s) && Evident(g, s.rows) && InTable(s.rows, todo) && g.chain(tx).ok
    requires forall r :: r in todo ==> r.tx == Some(tx) && !r.status.Submitted?
    ensures var t := MineRows(s.rows, TheReceipt(g, tx), Confirmed, todo);
            ChainInv(g, State(t, s.nextId + |t| - |s.rows|)) && Evident(g, t)
  {
    hide ChainInv, Evident, InTable, MineRows;
    MineNothing(g, s, tx, todo);
    assert State(s.rows, s.nextId) == s;
  }

  lemma ChainReceive(g: Setting, s: State, tx: string, decodes: bool, accept: int -> bool)
    requires ChainInv(g, s) && Evident(g, s.rows) && InOrder(g, s, Receive(tx, decodes, accept))
    ensures ChainInv(g, Next(g, s, Receive(tx, decodes, accept)))
    ensures Evident(g, Next(g, s, Receive(tx, decodes, accept)).rows)
  {
    hide ChainInv, FinalizeRows, SettleAll, MineRows, RowsOf, InTable, ItemsOf, OrderedTodo, OrderedTail, Evident,
         Next, After, InOrder;
    var todo := RowsOf(s.rows, tx, accept);
    ReceiveOrder(g, s, tx, decodes, accept);
    ChainReady(g, s, tx, accept);
    AfterReceive(g, s, tx, decodes, accept);
    if todo == [] {
      assert State(s.rows, s.nextId) == s;
    } else if !g.chain(tx).ok {
      ChainReverted(g, s, tx, todo);
    } else if !decodes {
      ChainUndecoded(g, s, tx, todo);
    } else {
      ChainEvents(g, s, tx, todo);
    }
  }

  lemma ChainDiscover(g: Setting, s: State, found: seq<(string, SettlementEvent)>)
    requires ChainInv(g, s) && Evident(g, s.rows) && Enabled(g, s, Discover(found)) && InOrder(g, s, Discover(found))
    ensures ChainInv(g, Next(g, s, Discover(found))) && Evident(g, Next(g, s, Discover(found)).rows)
  {
    hide ChainInv, SettleAll, Items, FromChain, OrderedTail, Evident;
    FoundFromChain(g, found);
    ChainSettle(g, s, Items(g, found));
    SettleEvident(g, s.rows, s.nextId, Items(g, found));
  }

  lemma AppendEvident(g: Setting, rows: seq<Row>, row: Row)
    requires Evident(g, rows) && row.status.Submitted?
    ensures Evident(g, rows + [row])
  {
    hide Decoded1;
  }

  /** Links and marks are no part of a row's evidence. */
  lemma SameEvidence1(g: Setting, r: Row, link: Option<int>, baseline: bool)
    requires Decoded1(g, r) && (link == r.link || (Path0(r) ==> link.None?))
    ensures Decoded1(g, r.(link := link, baseline := baseline))
  {
  }

  lemma RebuiltEvident(g: Setting, s: State, rebuilt: seq<Row>)
    requires Ascending(s.rows) && Evident(g, s.rows) && Relinked(s.rows, rebuilt, g.auction, g.token)
    ensures Evident(g, rebuilt)
  {
    hide Decoded1, OpenBefore;
    forall y | y in rebuilt && y.status.Confirmed? ensures Decoded1(g, y) {
      var i :| 0 <= i < |rebuilt| && rebuilt[i] == y;
      assert s.rows[i] in s.rows;
      if Relinkable(s.rows[i], g.auction, g.token) {
        RebuiltLink(s.rows, rebuilt, g.auction, g.token, i);
        SameEvidence1(g, s.rows[i], y.link, y.baseline);
      }
    }
  }

  lemma MarkedEvident(g: Setting, rows: seq<Row>, id: int)
    requires Evident(g, rows)
    ensures Evident(g, MarkBaseline(rows, id))
  {
    hide Decoded1;
    var after := MarkBaseline(rows, id);
    forall y | y in after && y.status.Confirmed? ensures Decoded1(g, y) {
      var i :| 0 <= i < |after| && after[i] == y;
      assert rows[i] in rows;
      SameEvidence1(g, rows[i], rows[i].link, y.baseline);
    }
  }

  lemma ChainStep(g: Setting, s: State, step: Step)
    requires ChainInv(g, s) && Evident(g, s.rows) && Enabled(g, s, step) && InOrder(g, s, step)
    ensures ChainInv(g, Next(g, s, step)) && Evident(g, Next(g, s, step).rows)
    ensures StepRestrained(g, s, step)
  {
    ChainFacts(g, s);
    hide ChainInv, Restrained, Agreeable, Evident, InOrder, Next;
    match step
    case SubmitKick(kick, now) =>
      ChainKick(g, s, kick, now);
      AppendEvident(g, s.rows, kick.(id := s.nextId));
      AfterKick(g, s, kick, now);
    case SubmitRecovery(recovery) =>
      ChainRecovery(g, s, recovery);
      AppendEvident(g, s.rows, recovery.(id := s.nextId));
      AfterRecovery(g, s, recovery);
    case Receive(tx, decodes, accept) =>
      ChainReceive(g, s, tx, decodes, accept);
      NothingLate(g, s, tx, accept);
    case Discover(found) =>
      ChainDiscover(g, s, found);
    case Relink(rebuilt) =>
      ChainRelink(g, s, rebuilt);
      RebuiltEvident(g, s, rebuilt);
      AfterRelink(g, s, rebuilt);
      ChainAgreeable(g, s, rebuilt);
    case ClearSuspension =>
      ChainClear(g, s);
      MarkedEvident(g, s.rows, PlanClear(s.rows).value.baselineKickId);
      AfterClear(g, s);
  }

  lemma AfterKick(g: Setting, s: State, kick: Row, now: int)
    ensures Next(g, s, SubmitKick(kick, now)).rows == s.rows + [kick.(id := s.nextId)]
  {
  }

  lemma AfterRecovery(g: Setting, s: State, recovery: Row)
    ensures Next(g, s, SubmitRecovery(recovery)).rows == s.rows + [recovery.(id := s.nextId)]
  {
  }

  lemma AfterClear(g: Setting, s: State)
    requires PlanClear(s.rows).Ok?
    ensures Next(g, s, ClearSuspension).rows == MarkBaseline(s.rows, PlanClear(s.rows).value.baselineKickId)
  {
  }

  lemma NothingLate(g: Setting, s: State, tx: string, accept: int -> bool)
    requires Ascending(s.rows) && Evident(g, s.rows)
    ensures !SomeLate(g, RowsOf(s.rows, tx, accept))
  {
    hide Decoded1;
  }

  lemma ChainAgreeable(g: Setting, s: State, rebuilt: seq<Row>)
    requires ChainInv(g, s) && Relinked(s.rows, rebuilt, g.auction, g.token) && Restrained(s.rows, rebuilt)
    ensures Agreeable(s.rows)
  {
    hide Inv, Chained, Judged, Restrained, Agreeable, Relinked, Regular, SettledBelow;
    InvRegular(g, s);
    RestrainedIff(s.rows, rebuilt, g.auction, g.token);
  }

  lemma {:induction false} ChainRun(g: Setting, s: State, steps: seq<Step>)
    requires ChainInv(g, s) && Evident(g, s.rows) && Legal(g, s, steps) && ChainOrdered(g, s, steps)
    ensures ChainInv(g, Run(g, s, steps)) && Evident(g, Run(g, s, steps).rows) && RestrainedRun(g, s, steps)
  {
    hide ChainInv, Enabled, Next, StepRestrained, InOrder, Evident;
    if |steps| > 0 {
      ChainRun(g, s, steps[..|steps| - 1]);
      ChainStep(g, Run(g, s, steps[..|steps| - 1]), steps[|steps| - 1]);
    }
  }

  lemma StartChained(g: Setting)
    ensures ChainInv(g, START) && Evident(g, START.rows)
  {
  }

  /** In every run from an empty history that confirms rows in chain order and with their
      evidence, receipts replayed and links rebuilt at any time: a pair never has two open
      rounds, the open one is its newest, and the guard never counts more consecutive
      no-fills than it has retry delays, plus one. Every such run is restrained. */
  lemma GuardedRuns(g: Setting, steps: seq<Step>)
    requires Legal(g, START, steps) && ChainOrdered(g, START, steps)
    ensures Safe(g, Run(g, START, steps).rows)
    ensures RestrainedRun(g, START, steps)
  {
    hide ChainInv, Legal, ChainOrdered, Safe, RestrainedRun, Run, Inv;
    StartChained(g);
    ChainRun(g, START, steps);
    RestrainedRuns(g, steps);
  }

  /** And every link such a run makes, at submission, by the lookup or by a rebuild, is the
      batch scan's, but for two kinds of recovery: one confirmed after its round was closed,
      which the scan leaves unlinked, and one whose receipt gave no evidence, which the scan
      attaches. */
  lemma RunLinksCanonical(g: Setting, steps: seq<Step>, r: Row)
    requires Legal(g, START, steps) && ChainOrdered(g, START, steps)
    requires var rows := Run(g, START, steps).rows; Recovered(rows, r)
    ensures var rows := Run(g, START, steps).rows;
            CanonicalLink(rows, r, r.link)
            || (r.link.Some? && NoneOpen(rows, r) && HasClose(rows, r.link.value))
            || (r.link.None? && Blank(r))
  {
    hide Legal, ChainOrdered, RestrainedRun, Run, Inv, Judged, KicksApart, MarksClose, Aimed, OpenBefore;
    StartChained(g);
    ChainRun(g, START, steps);
    var rows := Run(g, START, steps).rows;
    assert Attributed1(rows, r);
    if r.link.Some? {
      var k :| WellLinked(rows, r, k);
      if OpensFor(rows, r, k) {
        LinkedCanonical(rows, r, k);
      } else {
        CanonIsClosed(rows, k);
      }
    } else if NoneOpen(rows, r) || Path0(r) {
      UnlinkedCanonical(rows, r);
    }
  }

  lemma LinkedCanonical(rows: seq<Row>, r: Row, k: Row)
    requires OpensFor(rows, r, k) && r.link == Some(k.id) && !Path0(r)
    ensures CanonicalLink(rows, r, r.link)
  {
    hide LatestMark;
  }

  lemma UnlinkedCanonical(rows: seq<Row>, r: Row)
    requires r.Position().Some? && r.link.None? && (NoneOpen(rows, r) || Path0(r))
    ensures CanonicalLink(rows, r, r.link)
  {
    hide LatestMark;
    assert Path0(r) || forall k :: OpenBefore(rows, r, k) ==> OpensFor(rows, r, k);
  }
}
