/** Two runs that break the retry bound. In the first a recovery's receipt is applied before
    that of its kick: it stays unlinked, the kick's round is settled without it and passes
    for productive, and a later rebuild links it and makes the round a no-fill. In the
    second every row is confirmed in chain order, but one without its evidence, which a
    replay brings after the round was settled. */
module LateReceipt {
  import opened Common
  import opened Rounds
  import opened PairHistory
  import opened Guard
  import opened KickTable
  import opened RoundLinks
  import opened Receipts
  import opened ReceiptLaws
  import opened FrozenRounds
  import opened GuardRuns
  import opened ChainLinks
  import opened ChainRuns

  const NO_EVENTS: Decoded := Decoded([], [], [], [])

  function LateChain(tx: string): Mining {
    if tx == "h2" then Mining(true, Pos(1, 0), 100)
    else if tx == "h1" then Mining(true, Pos(2, 0), 200)
    else if tx == "h3" then Mining(true, Pos(3, 0), 300)
    else if tx == "h4" then Mining(true, Pos(4, 0), 400)
    else Mining(true, Pos(5, 0), 500)
  }

  function LateEvents(tx: string): Decoded {
    if tx == "h2" || tx == "h4" then NO_EVENTS.(kicks := [KickEvent("a", "t", 4, Some(4))])
    else if tx == "h1" then NO_EVENTS.(resolves := [ResolveEvent("a", "t", 2, 4)])
    else if tx == "h3" then NO_EVENTS.(resolves := [ResolveEvent("a", "t", 1, 0)])
    else NO_EVENTS.(resolves := [ResolveEvent("a", "t", 1, 4)])
  }

  /** A guard with no retries at all. */
  function LateSetting(): Setting {
    Setting("a", "t", [], LateChain, LateEvents)
  }

  function Fresh(id: int, op: Op, tx: string, createdAt: int): Row {
    Row(id, op, Submitted, "a", "t", Some(tx), None, None, None, Some(createdAt), Some(4), None, None, None, false)
  }

  function PlacedAt(r: Row, block: nat, minedAt: int): Row {
    r.(status := Confirmed, block := Some(block), txIndex := Some(0), minedAt := Some(minedAt))
  }

  const K1: Row := Fresh(1, Kick, "h2", 10)
  const R2: Row := Fresh(2, Resolve, "h1", 20)
  const C3: Row := Fresh(3, Resolve, "h3", 30)
  const K4: Row := Fresh(4, Kick, "h4", 310)
  const R5: Row := Fresh(5, Resolve, "h5", 410)

  const K1_MINED: Row := PlacedAt(K1, 1, 100).(amount := Some(4))
  const R2_BARE: Row := PlacedAt(R2, 2, 200)
  const R2_BARE_LINKED: Row := R2_BARE.(link := Some(1))
  const R2_MINED: Row := R2_BARE.(amount := Some(4), path := Some(2))
  const R2_LINKED: Row := R2_MINED.(link := Some(1))
  const C3_MINED: Row := PlacedAt(C3, 3, 300).(amount := Some(0), path := Some(1), link := Some(1))
  const K4_MINED: Row := PlacedAt(K4, 4, 400).(amount := Some(4))
  const R5_MINED: Row := PlacedAt(R5, 5, 500).(amount := Some(4), path := Some(1), link := Some(4))

  const ALL: int -> bool := (id: int) => true

  // ------------------------------------------------------------ running steps

  lemma Extend(g: Setting, s: State, steps: seq<Step>, t: State, step: Step)
    requires Legal(g, s, steps) && Run(g, s, steps) == t && Enabled(g, t, step)
    ensures Legal(g, s, steps + [step]) && Run(g, s, steps + [step]) == Next(g, t, step)
  {
    hide Enabled, Next;
    assert (steps + [step])[..|steps|] == steps;
  }

  /** Every row of the run was confirmed in chain order, with its evidence or not. */
  ghost predicate LandsThroughout(g: Setting, s: State, steps: seq<Step>) {
    |steps| > 0 ==>
      && LandsThroughout(g, s, steps[..|steps| - 1])
      && LandsInOrder(g, Run(g, s, steps[..|steps| - 1]), steps[|steps| - 1])
  }

  lemma ExtendLands(g: Setting, s: State, steps: seq<Step>, t: State, step: Step)
    requires LandsThroughout(g, s, steps) && Run(g, s, steps) == t && LandsInOrder(g, t, step)
    ensures LandsThroughout(g, s, steps + [step])
  {
    hide LandsInOrder, Run;
    assert (steps + [step])[..|steps|] == steps;
  }

  lemma {:induction false} SoleOwn(rows: seq<Row>, tx: string, i: nat)
    requires i < |rows| && rows[i].tx == Some(tx) && forall j :: 0 <= j < |rows| && j != i ==> rows[j].tx != Some(tx)
    ensures RowsOf(rows, tx, ALL) == [rows[i]]
    decreases |rows|
  {
    var n := |rows| - 1;
    if i < n {
      SoleOwn(rows[..n], tx, i);
    } else {
      NoneOwn(rows[..n], tx);
    }
  }

  lemma {:induction false} NoneOwn(rows: seq<Row>, tx: string)
    requires forall j :: 0 <= j < |rows| ==> rows[j].tx != Some(tx)
    ensures RowsOf(rows, tx, ALL) == []
  {
    if |rows| > 0 {
      NoneOwn(rows[..|rows| - 1], tx);
    }
  }

  /** A receipt without settlements, for one row: with its events, or without. */
  lemma ReceiveOne(s: State, tx: string, decodes: bool, i: nat, row: Row)
    requires Ascending(s.rows) && i < |s.rows| && s.rows[i].tx == Some(tx)
    requires forall j :: 0 <= j < |s.rows| && j != i ==> s.rows[j].tx != Some(tx)
    requires LateEvents(tx).settlements == [] && LateChain(tx).ok
    requires row == if decodes then Finalized(s.rows, TheReceipt(LateSetting(), tx), LateEvents(tx), s.rows[i])
                    else Receipts.Mined(s.rows[i], TheReceipt(LateSetting(), tx), Confirmed)
    requires row.id == s.rows[i].id
    ensures Next(LateSetting(), s, Receive(tx, decodes, ALL)) == State(s.rows[i := row], s.nextId)
    ensures RowsOf(s.rows, tx, ALL) == [s.rows[i]]
  {
    hide Finalized, RowsOf, LateEvents, LateChain, Receipts.Mined;
    var g := LateSetting();
    var receipt, d := TheReceipt(g, tx), g.events(tx);
    SoleOwn(s.rows, tx, i);
    SetIsUpdate(s.rows, i, row);
    var todo := [s.rows[i]];
    assert todo[1..] == [];
    assert FinalizeRows(SetRow(s.rows, row), receipt, d, []) == SetRow(s.rows, row);
    assert MineRows(SetRow(s.rows, row), receipt, Confirmed, []) == SetRow(s.rows, row);
    assert decodes ==> FinalizeRows(s.rows, receipt, d, todo) == SetRow(s.rows, row);
    assert !decodes ==> MineRows(s.rows, receipt, Confirmed, todo) == SetRow(s.rows, row);
    assert ItemsOf(receipt, d) == [];
  }

  lemma LandsOne(s: State, tx: string, decodes: bool, i: nat)
    requires i < |s.rows| && RowsOf(s.rows, tx, ALL) == [s.rows[i]]
    requires |Next(LateSetting(), s, Receive(tx, decodes, ALL)).rows| == |s.rows|
    requires s.rows[i].status.Submitted? ==> Lands(s.rows, s.rows[i], LateChain(tx).pos)
    ensures LandsInOrder(LateSetting(), s, Receive(tx, decodes, ALL))
  {
    hide RowsOf, Lands, LateChain, ApplyReceipt;
  }

  lemma NoCandidate(rows: seq<Row>, before: Option<Pos>)
    requires forall r :: r in rows ==> !Candidate(rows, "a", "t", before, r)
    ensures LatestUnclosedKick(rows, "a", "t", before).None?
  {
    hide LatestUnclosedKick;
  }

  lemma SoleCandidate(rows: seq<Row>, before: Option<Pos>, k: Row)
    requires k in rows && Candidate(rows, "a", "t", before, k)
    requires forall r :: r in rows && r != k ==> !Candidate(rows, "a", "t", before, r)
    ensures LatestUnclosedKick(rows, "a", "t", before) == Some(k)
  {
    hide LatestUnclosedKick, Candidate;
    var m := LatestUnclosedKick(rows, "a", "t", before);
    assert m.Some? && m.value == k;
  }

  // ------------------------------------------------------------------ evidence

  /** The closes of a kick and what they and the recoveries give back, row by row. */
  lemma Grow(kickId: int, rows: seq<Row>, r: Row)
    ensures Filter(ClosesKick(kickId), rows + [r])
            == if ClosesKick(kickId)(r) then Filter(ClosesKick(kickId), rows) + [r]
               else Filter(ClosesKick(kickId), rows)
    ensures GivenBack(kickId, rows + [r]) == GivenBack(kickId, rows) + if GivesBack(kickId, r) then AMOUNT_OF(r) else 0
  {
    FilterAppend(ClosesKick(kickId), rows, r);
    GivenBackAppend(kickId, rows, r);
  }

  lemma NothingYet(kickId: int)
    ensures Filter(ClosesKick(kickId), []) == [] && GivenBack(kickId, []) == 0
  {
  }

  lemma FourRows(kickId: int, a: Row, b: Row, c: Row, d: Row, e: Row)
    ensures [a, b] == [a] + [b] && [a, b, c] == [a, b] + [c] && [a, b, c, d] == [a, b, c] + [d]
    ensures [a, b, c, d, e] == [a, b, c, d] + [e]
  {
  }

  lemma CompleteOutcome(kick: Row, rows: seq<Row>, close: Row)
    requires CompleteRound(kick, rows, close)
    ensures var e := ClassifyRound(kick, rows);
            && e.Completed() && kick.amount.Some?
            && (e.outcome.NoFill? <==> GivenBack(kick.id, rows) == kick.amount.value)
  {
    hide ClassifyRound, CompleteRound, GivenBack, Filter;
    CompletedIff(kick, rows);
  }

  /** The first round's rows with its recovery in one of its unlinked forms. */
  function Settling(r: Row): seq<Row> {
    [K1_MINED, r, C3_MINED]
  }

  /** Without the recovery the first round looks productive. */
  lemma FirstRoundProductive(r: Row)
    requires r == R2_MINED || r == R2_BARE
    ensures ClassifyRound(K1_MINED, Settling(r)).outcome.Productive?
  {
    hide Filter, GivenBack, ClassifyRound;
    FourRows(1, K1_MINED, r, C3_MINED, K4, R5);
    NothingYet(1);
    assert [] + [K1_MINED] == [K1_MINED];
    Skip(1, [], K1_MINED);
    Skip(1, [K1_MINED], r);
    Grow(1, [K1_MINED, r], C3_MINED);
    assert CompleteRound(K1_MINED, Settling(r), C3_MINED);
    CompleteOutcome(K1_MINED, Settling(r), C3_MINED);
  }

  const LINKED: seq<Row> := [K1_MINED, R2_LINKED, C3_MINED, K4_MINED, R5_MINED]

  /** A row that neither closes the kick's round nor gives it anything back. */
  lemma Skip(kickId: int, rows: seq<Row>, r: Row)
    requires r.link != Some(kickId)
    ensures Filter(ClosesKick(kickId), rows + [r]) == Filter(ClosesKick(kickId), rows)
    ensures GivenBack(kickId, rows + [r]) == GivenBack(kickId, rows)
  {
    hide Filter, GivenBack;
    Grow(kickId, rows, r);
  }

  lemma FirstTotals()
    ensures Filter(ClosesKick(1), LINKED) == [C3_MINED] && GivenBack(1, LINKED) == 4
  {
    hide Filter, GivenBack, ClosesKick;
    FourRows(1, K1_MINED, R2_LINKED, C3_MINED, K4_MINED, R5_MINED);
    FirstThree();
    Skip(1, [K1_MINED, R2_LINKED, C3_MINED], K4_MINED);
    Skip(1, [K1_MINED, R2_LINKED, C3_MINED, K4_MINED], R5_MINED);
  }

  lemma FirstThree()
    ensures Filter(ClosesKick(1), [K1_MINED, R2_LINKED, C3_MINED]) == [C3_MINED]
    ensures GivenBack(1, [K1_MINED, R2_LINKED, C3_MINED]) == 4
  {
    hide Filter, GivenBack;
    FourRows(1, K1_MINED, R2_LINKED, C3_MINED, K4_MINED, R5_MINED);
    assert [] + [K1_MINED] == [K1_MINED];
    NothingYet(1);
    Skip(1, [], K1_MINED);
    Grow(1, [K1_MINED], R2_LINKED);
    Grow(1, [K1_MINED, R2_LINKED], C3_MINED);
  }

  lemma SecondTotals()
    ensures Filter(ClosesKick(4), LINKED) == [R5_MINED] && GivenBack(4, LINKED) == 4
  {
    hide Filter, GivenBack;
    FourRows(4, K1_MINED, R2_LINKED, C3_MINED, K4_MINED, R5_MINED);
    assert [] + [K1_MINED] == [K1_MINED];
    NothingYet(4);
    Skip(4, [], K1_MINED);
    Skip(4, [K1_MINED], R2_LINKED);
    Skip(4, [K1_MINED, R2_LINKED], C3_MINED);
    Skip(4, [K1_MINED, R2_LINKED, C3_MINED], K4_MINED);
    Grow(4, [K1_MINED, R2_LINKED, C3_MINED, K4_MINED], R5_MINED);
  }

  lemma FirstNoFill()
    ensures ClassifyRound(K1_MINED, LINKED).outcome.NoFill?
  {
    hide Filter, GivenBack, ClassifyRound;
    FirstTotals();
    assert forall r :: r in LINKED ==> Sound(K1_MINED, r);
    assert CompleteRound(K1_MINED, LINKED, C3_MINED);
    CompleteOutcome(K1_MINED, LINKED, C3_MINED);
  }

  lemma SecondNoFill()
    ensures ClassifyRound(K4_MINED, LINKED).outcome.NoFill?
  {
    hide Filter, GivenBack, ClassifyRound;
    SecondTotals();
    assert forall r :: r in LINKED ==> Sound(K4_MINED, r);
    assert CompleteRound(K4_MINED, LINKED, R5_MINED);
    CompleteOutcome(K4_MINED, LINKED, R5_MINED);
  }

  // ------------------------------------------------------------------- kicks

  lemma NewestAlone(k: Row)
    ensures InsertNewestFirst([], k) == [k]
  {
  }

  lemma NewerFirst(prior: Row, k: Row)
    requires !Older(k, prior)
    ensures InsertNewestFirst([prior], k) == [k, prior]
  {
  }

  lemma NoKicks()
    ensures KicksNewestFirst([]) == []
  {
  }

  lemma KicksSettling(r: Row)
    requires !r.op.Kick?
    ensures KicksNewestFirst(Settling(r)) == [K1_MINED]
  {
    hide KicksNewestFirst, InsertNewestFirst;
    FourRows(0, K1_MINED, r, C3_MINED, K4, R5);
    NoKicks();
    assert [] + [K1_MINED] == [K1_MINED];
    KicksAppend([], K1_MINED);
    NewestAlone(K1_MINED);
    KicksAppend([K1_MINED], r);
    KicksAppend([K1_MINED, r], C3_MINED);
  }

  /** Two kicks: the second is the newer. */
  lemma KicksTwo(r: Row, k: Row)
    requires !r.op.Kick? && (k == K4 || k == K4_MINED)
    ensures KicksNewestFirst([K1_MINED, r, C3_MINED, k]) == [k, K1_MINED]
  {
    KicksSettling(r);
    hide KicksNewestFirst, InsertNewestFirst;
    FourRows(0, K1_MINED, r, C3_MINED, k, R5);
    KicksAppend(Settling(r), k);
    NewerFirst(K1_MINED, k);
  }

  lemma KicksLinked()
    ensures KicksNewestFirst(LINKED) == [K4_MINED, K1_MINED]
  {
    KicksTwo(R2_LINKED, K4_MINED);
    hide KicksNewestFirst, InsertNewestFirst;
    FourRows(0, K1_MINED, R2_LINKED, C3_MINED, K4_MINED, R5_MINED);
    KicksAppend([K1_MINED, R2_LINKED, C3_MINED, K4_MINED], R5_MINED);
  }

  lemma NoStrayClose(r: Row)
    requires r == R2_MINED || r == R2_BARE
    ensures !HasStrayClose(Settling(r), K1_MINED, None) && !Baselined(Settling(r), 1)
  {
  }

  lemma FirstRoundOnly(r: Row)
    requires r == R2_MINED || r == R2_BARE
    ensures CurrentRounds(Settling(r)) == [ClassifyRound(K1_MINED, Settling(r))]
  {
    KicksSettling(r);
    NoStrayClose(r);
    hide KicksNewestFirst, ClassifyRound, HasStrayClose, Baselined;
    var rows := Settling(r);
    assert NewerThan([K1_MINED], 0) == None;
    assert |AllRounds(rows)| == 1 && AllRounds(rows)[0] == ClassifyRound(K1_MINED, rows);
  }

  /** The guard lets the second kick through. */
  lemma SecondAllowed(r: Row)
    requires r == R2_MINED || r == R2_BARE
    ensures Decide(Settling(r), [], 310, false).action.Allow?
  {
    hide CurrentRounds, ClassifyRound, Judge;
    FirstRoundOnly(r);
    FirstRoundProductive(r);
    ProductiveAllows(CurrentRounds(Settling(r)), 310);
  }

  lemma ProductiveAllows(rounds: seq<Evidence>, now: int)
    requires |rounds| == 1 && rounds[0].outcome.Productive?
    ensures Judge(rounds, [], now, false).action.Allow?
  {
  }

  /** At the end two rounds in a row are no-fills. */
  lemma TwoCounted()
    ensures LatestSequence(CurrentRounds(LINKED)).noFills == 2
  {
    KicksLinked();
    FirstNoFill();
    SecondNoFill();
    hide KicksNewestFirst, ClassifyRound;
    var kicks := [K4_MINED, K1_MINED];
    assert !HasStrayClose(LINKED, K4_MINED, None) && !HasStrayClose(LINKED, K1_MINED, Some(K4_MINED));
    assert NewerThan(kicks, 0) == None && NewerThan(kicks, 1) == Some(K4_MINED);
    var rounds := AllRounds(LINKED);
    assert |rounds| == 2 && rounds[0] == ClassifyRound(K4_MINED, LINKED);
    assert rounds[1] == ClassifyRound(K1_MINED, LINKED);
    assert !Baselined(LINKED, 4) && !Baselined(LINKED, 1);
    TwoUnmarked(LINKED, rounds);
    TwoNoFills(rounds);
  }

  lemma TwoUnmarked(rows: seq<Row>, rounds: seq<Evidence>)
    requires |rounds| == 2 && !Baselined(rows, rounds[0].kickId) && !Baselined(rows, rounds[1].kickId)
    ensures BeforeBaseline(rows, rounds) == rounds
  {
    assert rounds[1..][1..] == [];
    assert rounds == [rounds[0]] + ([rounds[1]] + []);
  }

  lemma TwoNoFills(rounds: seq<Evidence>)
    requires |rounds| == 2 && rounds[0].outcome.NoFill? && rounds[1].outcome.NoFill?
    ensures LatestSequence(rounds).noFills == 2
  {
    assert rounds[1..][1..] == [];
  }

  // ------------------------------------------------- what both runs begin with

  const T1: seq<Row> := [K1]
  const T2: seq<Row> := [K1, R2]
  const T3: seq<Row> := [K1, R2, C3]

  const BEGIN: seq<Step> := [SubmitKick(K1, 10), SubmitRecovery(R2), SubmitRecovery(C3)]

  lemma BeginKick()
    ensures Enabled(LateSetting(), START, SubmitKick(K1, 10))
    ensures Next(LateSetting(), START, SubmitKick(K1, 10)) == State(T1, 2)
  {
    NoKicks();
    hide KicksNewestFirst;
    assert AllRounds([]) == [];
    assert CurrentRounds([]) == [];
  }

  lemma BeginRecoveries()
    ensures Enabled(LateSetting(), State(T1, 2), SubmitRecovery(R2))
    ensures Next(LateSetting(), State(T1, 2), SubmitRecovery(R2)) == State(T2, 3)
    ensures Enabled(LateSetting(), State(T2, 3), SubmitRecovery(C3))
    ensures Next(LateSetting(), State(T2, 3), SubmitRecovery(C3)) == State(T3, 4)
  {
    assert T1 + [R2.(id := 2)] == T2;
    assert T2 + [C3.(id := 3)] == T3;
  }

  lemma Begins()
    ensures Legal(LateSetting(), START, BEGIN) && Run(LateSetting(), START, BEGIN) == State(T3, 4)
    ensures LandsThroughout(LateSetting(), START, BEGIN)
  {
    hide Enabled, Next, Legal, Run, LandsThroughout;
    var g := LateSetting();
    StartsLegal(g);
    BeginKick();
    BeginRecoveries();
    SubmissionLands(g);
    Extend(g, START, [], START, SubmitKick(K1, 10));
    ExtendLands(g, START, [], START, SubmitKick(K1, 10));
    var p := [] + [SubmitKick(K1, 10)];
    Extend(g, START, p, State(T1, 2), SubmitRecovery(R2));
    ExtendLands(g, START, p, State(T1, 2), SubmitRecovery(R2));
    p := p + [SubmitRecovery(R2)];
    Extend(g, START, p, State(T2, 3), SubmitRecovery(C3));
    ExtendLands(g, START, p, State(T2, 3), SubmitRecovery(C3));
    assert p + [SubmitRecovery(C3)] == BEGIN;
  }

  /** Submissions and rebuilds confirm nothing. */
  lemma SubmissionLands(g: Setting)
    ensures forall s, kick, now :: LandsInOrder(g, s, SubmitKick(kick, now))
    ensures forall s, recovery :: LandsInOrder(g, s, SubmitRecovery(recovery))
    ensures forall s, rebuilt :: LandsInOrder(g, s, Relink(rebuilt))
  {
  }

  lemma StartsLegal(g: Setting)
    ensures Legal(g, START, []) && Run(g, START, []) == START && LandsThroughout(g, START, [])
  {
  }

  lemma ReceiveEnabled(s: State, tx: string, decodes: bool)
    ensures Enabled(LateSetting(), s, Receive(tx, decodes, ALL))
  {
  }

  // -------------------------------------------------- what both runs end with

  const T8: seq<Row> := [K1_MINED, R2_LINKED, C3_MINED, K4]
  const T9: seq<Row> := [K1_MINED, R2_LINKED, C3_MINED, K4_MINED]
  const T10: seq<Row> := [K1_MINED, R2_LINKED, C3_MINED, K4_MINED, R5]

  const END: seq<Step> := [Receive("h4", true, ALL), SubmitRecovery(R5), Receive("h5", true, ALL)]

  lemma SecondFinalized()
    ensures Finalized(T8, TheReceipt(LateSetting(), "h4"), LateEvents("h4"), K4) == K4_MINED
  {
    hide LatestUnclosedKick;
  }

  lemma EndKick()
    ensures Next(LateSetting(), State(T8, 5), Receive("h4", true, ALL)) == State(T9, 5)
    ensures LandsInOrder(LateSetting(), State(T8, 5), Receive("h4", true, ALL))
  {
    hide Finalized;
    SecondFinalized();
    ReceiveOne(State(T8, 5), "h4", true, 3, K4_MINED);
    assert T8[3 := K4_MINED] == T9;
    hide Next, RowsOf;
    LandsOne(State(T8, 5), "h4", true, 3);
  }

  lemma EndRecovery()
    ensures Enabled(LateSetting(), State(T9, 5), SubmitRecovery(R5))
    ensures Next(LateSetting(), State(T9, 5), SubmitRecovery(R5)) == State(T10, 6)
  {
    assert T9 + [R5.(id := 5)] == T10;
  }

  lemma LastLookup()
    ensures LatestUnclosedKick(T10, "a", "t", Some(Pos(5, 0))) == Some(K4_MINED)
  {
    hide LatestUnclosedKick;
    assert C3_MINED in T10 && K4_MINED in T10;
    assert HasConfirmedClose(T10, "a", "t", 1);
    assert !HasConfirmedClose(T10, "a", "t", 4);
    hide HasConfirmedClose;
    SoleCandidate(T10, Some(Pos(5, 0)), K4_MINED);
  }

  lemma LastFinalized()
    ensures Finalized(T10, TheReceipt(LateSetting(), "h5"), LateEvents("h5"), R5) == R5_MINED
  {
    LastLookup();
    hide LatestUnclosedKick;
  }

  lemma EndClose()
    ensures Next(LateSetting(), State(T10, 6), Receive("h5", true, ALL)) == State(LINKED, 6)
    ensures LandsInOrder(LateSetting(), State(T10, 6), Receive("h5", true, ALL))
  {
    LastFinalized();
    hide Finalized;
    ReceiveOne(State(T10, 6), "h5", true, 4, R5_MINED);
    assert T10[4 := R5_MINED] == LINKED;
    hide Next, RowsOf;
    LandsOne(State(T10, 6), "h5", true, 4);
  }

  /** From the linked table on, the second round fills the count. */
  lemma Ends(steps: seq<Step>)
    requires Legal(LateSetting(), START, steps) && Run(LateSetting(), START, steps) == State(T8, 5)
    ensures Legal(LateSetting(), START, steps + END)
    ensures LatestSequence(CurrentRounds(Run(LateSetting(), START, steps + END).rows)).noFills ==
            |LateSetting().delays| + 2
    ensures LandsThroughout(LateSetting(), START, steps) ==> LandsThroughout(LateSetting(), START, steps + END)
  {
    hide Enabled, Next, Legal, Run, CurrentRounds, LatestSequence, LandsThroughout, LandsInOrder;
    var g := LateSetting();
    var a, b, c := Receive("h4", true, ALL), SubmitRecovery(R5), Receive("h5", true, ALL);
    EndKick();
    ReceiveEnabled(State(T8, 5), "h4", true);
    Extend(g, START, steps, State(T8, 5), a);
    EndRecovery();
    Extend(g, START, steps + [a], State(T9, 5), b);
    EndClose();
    ReceiveEnabled(State(T10, 6), "h5", true);
    Extend(g, START, steps + [a] + [b], State(T10, 6), c);
    assert steps + [a] + [b] + [c] == steps + END;
    TwoCounted();
    if LandsThroughout(g, START, steps) {
      SubmissionLands(g);
      ExtendLands(g, START, steps, State(T8, 5), a);
      ExtendLands(g, START, steps + [a], State(T9, 5), b);
      ExtendLands(g, START, steps + [a] + [b], State(T10, 6), c);
    }
  }

  // ------------------------------------------------- a receipt out of chain order

  const T4: seq<Row> := [K1, R2_MINED, C3]
  const T5: seq<Row> := [K1_MINED, R2_MINED, C3]
  const T7: seq<Row> := [K1_MINED, R2_MINED, C3_MINED, K4]

  const LATE_RUN: seq<Step> :=
    BEGIN + [Receive("h1", true, ALL), Receive("h2", true, ALL), Receive("h3", true, ALL),
             SubmitKick(K4, 310), Relink(T8)] + END

  /** The recovery's receipt comes first: its kick is not confirmed yet, so no round is
      found for it. */
  lemma LateRecovery()
    ensures Next(LateSetting(), State(T3, 4), Receive("h1", true, ALL)) == State(T4, 4)
  {
    NoCandidate(T3, Some(Pos(2, 0)));
    hide LatestUnclosedKick;
    assert Finalized(T3, TheReceipt(LateSetting(), "h1"), LateEvents("h1"), R2) == R2_MINED;
    hide Finalized;
    ReceiveOne(State(T3, 4), "h1", true, 1, R2_MINED);
    assert T3[1 := R2_MINED] == T4;
  }

  lemma LateKick()
    ensures Next(LateSetting(), State(T4, 4), Receive("h2", true, ALL)) == State(T5, 4)
  {
    hide LatestUnclosedKick;
    assert Finalized(T4, TheReceipt(LateSetting(), "h2"), LateEvents("h2"), K1) == K1_MINED;
    hide Finalized;
    ReceiveOne(State(T4, 4), "h2", true, 0, K1_MINED);
    assert T4[0 := K1_MINED] == T5;
  }

  lemma RoundFound(r: Row)
    requires r == R2_MINED || r == R2_BARE
    ensures LatestUnclosedKick([K1_MINED, r, C3], "a", "t", Some(Pos(3, 0))) == Some(K1_MINED)
  {
    var rows := [K1_MINED, r, C3];
    assert K1_MINED in rows && !HasConfirmedClose(rows, "a", "t", 1);
    assert Candidate(rows, "a", "t", Some(Pos(3, 0)), K1_MINED);
    SoleCandidate(rows, Some(Pos(3, 0)), K1_MINED);
  }

  lemma CloseStamped(r: Row)
    requires r == R2_MINED || r == R2_BARE
    ensures Finalized([K1_MINED, r, C3], TheReceipt(LateSetting(), "h3"), LateEvents("h3"), C3) == C3_MINED
  {
    RoundFound(r);
    hide LatestUnclosedKick;
  }

  /** The close finds the round, which the recovery is missing from. */
  lemma CloseFound(r: Row)
    requires r == R2_MINED || r == R2_BARE
    ensures Next(LateSetting(), State([K1_MINED, r, C3], 4), Receive("h3", true, ALL)) == State(Settling(r), 4)
    ensures RowsOf([K1_MINED, r, C3], "h3", ALL) == [C3]
  {
    hide LatestUnclosedKick, Finalized;
    var rows := [K1_MINED, r, C3];
    CloseStamped(r);
    ReceiveOne(State(rows, 4), "h3", true, 2, C3_MINED);
    assert rows[2 := C3_MINED] == Settling(r);
  }

  lemma KickLetThrough(r: Row)
    requires r == R2_MINED || r == R2_BARE
    ensures Enabled(LateSetting(), State(Settling(r), 4), SubmitKick(K4, 310))
    ensures Next(LateSetting(), State(Settling(r), 4), SubmitKick(K4, 310)) == State([K1_MINED, r, C3_MINED, K4], 5)
  {
    SecondAllowed(r);
    hide Decide;
    assert Settling(r) + [K4.(id := 4)] == [K1_MINED, r, C3_MINED, K4];
  }

  lemma FirstKickOpens(r: Row, x: Row)
    requires r == R2_MINED || r == R2_BARE
    requires x == r || x == C3_MINED
    ensures OpenBefore([K1_MINED, r, C3_MINED, K4], x, K1_MINED)
  {
    assert K1_MINED in [K1_MINED, r, C3_MINED, K4];
  }

  /** The rebuild puts the recovery where the chain has it. */
  lemma RebuildLinks(r: Row)
    requires r == R2_MINED || r == R2_BARE
    ensures Relinked([K1_MINED, r, C3_MINED, K4], [K1_MINED, r.(link := Some(1)), C3_MINED, K4], "a", "t")
  {
    FirstKickOpens(r, r);
    FirstKickOpens(r, C3_MINED);
    hide OpenBefore;
    var rows := [K1_MINED, r, C3_MINED, K4];
    assert CanonicalLink(rows, r, Some(1)) && CanonicalLink(rows, C3_MINED, Some(1));
  }

  lemma RelinkStep(rows: seq<Row>, rebuilt: seq<Row>)
    requires Relinked(rows, rebuilt, "a", "t")
    ensures Enabled(LateSetting(), State(rows, 5), Relink(rebuilt))
    ensures Next(LateSetting(), State(rows, 5), Relink(rebuilt)) == State(rebuilt, 5)
  {
    hide CanonicalLink;
  }

  /** Out of chain order a rebuild can break the bound: this legal run, under a guard
      without retries, ends with two no-fills in a row. */
  lemma LateReceiptBreaksBound()
    ensures Legal(LateSetting(), START, LATE_RUN)
    ensures LatestSequence(CurrentRounds(Run(LateSetting(), START, LATE_RUN).rows)).noFills ==
            |LateSetting().delays| + 2
  {
    hide Enabled, Next, Legal, Run, CurrentRounds, LatestSequence, LandsThroughout, Relinked;
    var g := LateSetting();
    Begins();
    LateRecovery();
    ReceiveEnabled(State(T3, 4), "h1", true);
    Extend(g, START, BEGIN, State(T3, 4), Receive("h1", true, ALL));
    var p := BEGIN + [Receive("h1", true, ALL)];
    LateKick();
    ReceiveEnabled(State(T4, 4), "h2", true);
    Extend(g, START, p, State(T4, 4), Receive("h2", true, ALL));
    p := p + [Receive("h2", true, ALL)];
    CloseFound(R2_MINED);
    ReceiveEnabled(State(T5, 4), "h3", true);
    Extend(g, START, p, State(T5, 4), Receive("h3", true, ALL));
    p := p + [Receive("h3", true, ALL)];
    KickLetThrough(R2_MINED);
    Extend(g, START, p, State(Settling(R2_MINED), 4), SubmitKick(K4, 310));
    p := p + [SubmitKick(K4, 310)];
    RebuildLinks(R2_MINED);
    RelinkStep(T7, T8);
    Extend(g, START, p, State(T7, 5), Relink(T8));
    p := p + [Relink(T8)];
    Ends(p);
    assert p + END == LATE_RUN;
  }

  // -------------------------------------------- in chain order, evidence too late

  const B4: seq<Row> := [K1_MINED, R2, C3]
  const B5: seq<Row> := [K1_MINED, R2_BARE, C3]
  const B7: seq<Row> := [K1_MINED, R2_BARE, C3_MINED, K4]
  const B8: seq<Row> := [K1_MINED, R2_BARE_LINKED, C3_MINED, K4]

  const BARE_RUN: seq<Step> :=
    BEGIN + [Receive("h2", true, ALL), Receive("h1", false, ALL), Receive("h3", true, ALL),
             SubmitKick(K4, 310), Relink(B8),
             Receive("h1", true, ALL)] + END

  lemma BareKick()
    ensures Next(LateSetting(), State(T3, 4), Receive("h2", true, ALL)) == State(B4, 4)
    ensures LandsInOrder(LateSetting(), State(T3, 4), Receive("h2", true, ALL))
  {
    hide LatestUnclosedKick;
    assert Finalized(T3, TheReceipt(LateSetting(), "h2"), LateEvents("h2"), K1) == K1_MINED;
    hide Finalized;
    ReceiveOne(State(T3, 4), "h2", true, 0, K1_MINED);
    assert T3[0 := K1_MINED] == B4;
    hide Next, RowsOf;
    LandsOne(State(T3, 4), "h2", true, 0);
  }

  /** The recovery is confirmed in its place, but its events cannot be decoded. */
  lemma BareRecovery()
    ensures Next(LateSetting(), State(B4, 4), Receive("h1", false, ALL)) == State(B5, 4)
    ensures LandsInOrder(LateSetting(), State(B4, 4), Receive("h1", false, ALL))
  {
    assert Receipts.Mined(R2, TheReceipt(LateSetting(), "h1"), Confirmed) == R2_BARE;
    ReceiveOne(State(B4, 4), "h1", false, 1, R2_BARE);
    assert B4[1 := R2_BARE] == B5;
    hide Next, RowsOf;
    LandsOne(State(B4, 4), "h1", false, 1);
  }

  lemma BareClose()
    ensures Next(LateSetting(), State(B5, 4), Receive("h3", true, ALL)) == State(Settling(R2_BARE), 4)
    ensures LandsInOrder(LateSetting(), State(B5, 4), Receive("h3", true, ALL))
  {
    CloseFound(R2_BARE);
    hide Next, RowsOf;
    LandsOne(State(B5, 4), "h3", true, 2);
  }

  /** The evidence comes with a replay, when the rebuild has linked the row already. */
  lemma BareDecoded()
    ensures Next(LateSetting(), State(B8, 5), Receive("h1", true, ALL)) == State(T8, 5)
    ensures LandsInOrder(LateSetting(), State(B8, 5), Receive("h1", true, ALL))
  {
    hide LatestUnclosedKick;
    assert Finalized(B8, TheReceipt(LateSetting(), "h1"), LateEvents("h1"), R2_BARE_LINKED) == R2_LINKED;
    hide Finalized;
    ReceiveOne(State(B8, 5), "h1", true, 1, R2_LINKED);
    assert B8[1 := R2_LINKED] == T8;
    hide Next, RowsOf;
    LandsOne(State(B8, 5), "h1", true, 1);
  }

  lemma BareRoundFrozen()
    ensures Frozen(B8, K1_MINED)
  {
    assert C3_MINED in B8;
  }

  lemma BareRoundDoubtful()
    ensures !ClassifyRound(K1_MINED, B8).Completed()
  {
    hide ClassifyRound;
    assert R2_BARE_LINKED in B8;
    ForeignRow(K1_MINED, B8, R2_BARE_LINKED);
  }

  lemma OnlyFirstSettled(kicks: seq<Row>, k: Row)
    requires kicks == [K4, K1_MINED] && SettledKick(kicks, k)
    ensures k == K1_MINED
  {
  }

  /** The rebuild itself is restrained: it only casts doubt on the settled round. */
  lemma BareRebuildRestrained()
    ensures Restrained(B7, B8)
  {
    hide KicksNewestFirst, ClassifyRound, SettledKick, Frozen;
    KicksTwo(R2_BARE, K4);
    BareRoundFrozen();
    BareRoundDoubtful();
    forall k | SettledKick(KicksNewestFirst(B7), k) ensures k == K1_MINED {
      OnlyFirstSettled(KicksNewestFirst(B7), k);
    }
  }

  /** Chain order and restrained rebuilds are not enough either: in this legal run every row
      is confirmed in chain order and the one rebuild is restrained, but a settled round's
      evidence comes late, and the count goes over the bound. */
  lemma LateEvidenceBreaksBound()
    ensures Legal(LateSetting(), START, BARE_RUN) && LandsThroughout(LateSetting(), START, BARE_RUN)
    ensures Restrained(B7, B8)
    ensures LatestSequence(CurrentRounds(Run(LateSetting(), START, BARE_RUN).rows)).noFills ==
            |LateSetting().delays| + 2
  {
    hide Enabled, Next, Legal, Run, CurrentRounds, LatestSequence, LandsThroughout, LandsInOrder, Relinked, Restrained;
    var g := LateSetting();
    BareRebuildRestrained();
    var p := BareSettled();
    RebuildLinks(R2_BARE);
    RelinkStep(B7, B8);
    SubmissionLands(g);
    Extend(g, START, p, State(B7, 5), Relink(B8));
    ExtendLands(g, START, p, State(B7, 5), Relink(B8));
    p := p + [Relink(B8)];
    BareDecoded();
    ReceiveEnabled(State(B8, 5), "h1", true);
    Extend(g, START, p, State(B8, 5), Receive("h1", true, ALL));
    ExtendLands(g, START, p, State(B8, 5), Receive("h1", true, ALL));
    p := p + [Receive("h1", true, ALL)];
    Ends(p);
    assert p + END == BARE_RUN;
  }

  lemma BareSettled() returns (p: seq<Step>)
    ensures p == BEGIN + [Receive("h2", true, ALL), Receive("h1", false, ALL), Receive("h3", true, ALL),
                          SubmitKick(K4, 310)]
    ensures Legal(LateSetting(), START, p) && LandsThroughout(LateSetting(), START, p)
    ensures Run(LateSetting(), START, p) == State(B7, 5)
  {
    hide Enabled, Next, Legal, Run, LandsThroughout, LandsInOrder;
    var g := LateSetting();
    Begins();
    p := BEGIN;
    BareKick();
    ReceiveEnabled(State(T3, 4), "h2", true);
    Extend(g, START, p, State(T3, 4), Receive("h2", true, ALL));
    ExtendLands(g, START, p, State(T3, 4), Receive("h2", true, ALL));
    p := p + [Receive("h2", true, ALL)];
    BareRecovery();
    ReceiveEnabled(State(B4, 4), "h1", false);
    Extend(g, START, p, State(B4, 4), Receive("h1", false, ALL));
    ExtendLands(g, START, p, State(B4, 4), Receive("h1", false, ALL));
    p := p + [Receive("h1", false, ALL)];
    BareClose();
    ReceiveEnabled(State(B5, 4), "h3", true);
    Extend(g, START, p, State(B5, 4), Receive("h3", true, ALL));
    ExtendLands(g, START, p, State(B5, 4), Receive("h3", true, ALL));
    p := p + [Receive("h3", true, ALL)];
    KickLetThrough(R2_BARE);
    SubmissionLands(g);
    Extend(g, START, p, State(Settling(R2_BARE), 4), SubmitKick(K4, 310));
    ExtendLands(g, START, p, State(Settling(R2_BARE), 4), SubmitKick(K4, 310));
    p := p + [SubmitKick(K4, 310)];
  }
}
