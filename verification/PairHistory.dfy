/** The rounds of one auction/token pair, newest first and cut at the newest reviewed baseline
    (tidal/auction_rounds.py). All rows here belong to one pair. */
module PairHistory {
  import opened Common
  import opened Rounds

  // ------------------------------------------------------------ kick order

  predicate ActiveKick(r: Row) {
    r.op.Kick? && !r.status.OtherStatus?
  }

  /** Creation order, ids breaking ties; an unreadable time sorts first. */
  predicate Older(a: Row, b: Row) {
    if a.createdAt == b.createdAt then a.id < b.id
    else a.createdAt.None? || (b.createdAt.Some? && a.createdAt.value < b.createdAt.value)
  }

  function InsertNewestFirst(kicks: seq<Row>, k: Row): (s: seq<Row>)
    ensures multiset(s) == multiset(kicks) + multiset{k}
  {
    if |kicks| == 0 || !Older(k, kicks[0]) then [k] + kicks
    else
      assert kicks == [kicks[0]] + kicks[1..];
      [kicks[0]] + InsertNewestFirst(kicks[1..], k)
  }

  /** The pair's live kicks, newest first. */
  function KicksNewestFirst(rows: seq<Row>): (s: seq<Row>)
    ensures multiset(s) == multiset(Filter(ActiveKick, rows))
  {
    if |rows| == 0 then []
    else
      var kicks, last := KicksNewestFirst(rows[..|rows| - 1]), rows[|rows| - 1];
      if ActiveKick(last) then InsertNewestFirst(kicks, last) else kicks
  }

  lemma KickMembers(rows: seq<Row>)
    ensures forall r :: r in KicksNewestFirst(rows) <==> r in rows && ActiveKick(r)
  {
    hide Filter;
    forall r ensures r in KicksNewestFirst(rows) <==> r in Filter(ActiveKick, rows) {
      assert r in KicksNewestFirst(rows) <==> r in multiset(KicksNewestFirst(rows));
      assert r in Filter(ActiveKick, rows) <==> r in multiset(Filter(ActiveKick, rows));
    }
  }

  ghost predicate NewestFirst(kicks: seq<Row>) {
    forall i, j :: 0 <= i < j < |kicks| ==> !Older(kicks[i], kicks[j])
  }

  lemma {:induction false} InsertSorted(kicks: seq<Row>, k: Row)
    requires NewestFirst(kicks)
    ensures NewestFirst(InsertNewestFirst(kicks, k))
  {
    if |kicks| > 0 && Older(k, kicks[0]) {
      InsertSorted(kicks[1..], k);
      var rest := InsertNewestFirst(kicks[1..], k);
      forall j | 0 <= j < |rest| ensures !Older(kicks[0], rest[j]) {
        assert rest[j] in multiset(rest);
        assert rest[j] in kicks[1..] || rest[j] == k;
      }
    } else if |kicks| > 0 {
      var s := [k] + kicks;
      forall i, j | 0 <= i < j < |s| ensures !Older(s[i], s[j]) {
        assert i > 0 ==> s[i] == kicks[i - 1];
        assert s[j] == kicks[j - 1];
        assert !Older(k, kicks[0]) && (j > 1 ==> !Older(kicks[0], kicks[j - 1]));
      }
    }
  }

  lemma {:induction false} KicksSorted(rows: seq<Row>)
    ensures NewestFirst(KicksNewestFirst(rows))
  {
    if |rows| > 0 {
      KicksSorted(rows[..|rows| - 1]);
      if ActiveKick(rows[|rows| - 1]) {
        InsertSorted(KicksNewestFirst(rows[..|rows| - 1]), rows[|rows| - 1]);
      }
    }
  }

  // -------------------------------------------------------- pair evidence

  /** A close that names no round: confirmed and closing, or still in flight. */
  predicate StrayClose(r: Row) {
    && (r.op.Resolve? || r.op.Settled?) && r.link.None?
    && (r.status.Submitted? || (r.status.Confirmed? && r.ClosesRound()))
  }

  /** The close falls after this kick and before the next newer one: by chain position
      when both have one, else by creation time. */
  predicate InWindow(kick: Row, newer: Option<Row>, close: Row) {
    var newerPos := if newer.Some? then newer.value.Position() else None;
    var newerAt := if newer.Some? then newer.value.createdAt else None;
    if kick.Position().Some? && close.Position().Some? then
      && kick.Position().value.Before(close.Position().value)
      && (newerPos.None? || close.Position().value.Before(newerPos.value))
    else
      && kick.createdAt.Some? && close.createdAt.Some?
      && kick.createdAt.value < close.createdAt.value
      && (newerAt.None? || close.createdAt.value < newerAt.value)
  }

  predicate HasStrayClose(rows: seq<Row>, kick: Row, newer: Option<Row>) {
    exists r :: r in rows && StrayClose(r) && InWindow(kick, newer, r)
  }

  /** Kicks placed on chain in the order they are listed, newest first. */
  ghost predicate PlacedInOrder(kicks: seq<Row>) {
    && (forall i :: 0 <= i < |kicks| ==> kicks[i].Position().Some?)
    && (forall i, j :: 0 <= i < j < |kicks| ==> kicks[j].Position().value.Before(kicks[i].Position().value))
  }

  lemma NotInNewerWindow(kicks: seq<Row>, close: Row, i: nat, j: nat)
    requires PlacedInOrder(kicks) && close.Position().Some? && i < j < |kicks|
    requires InWindow(kicks[j], NewerThan(kicks, j), close)
    ensures !InWindow(kicks[i], NewerThan(kicks, i), close)
  {
    assert close.Position().value.Before(kicks[j - 1].Position().value);
    assert j - 1 == i || kicks[j - 1].Position().value.Before(kicks[i].Position().value);
  }

  /** A placed close belongs to the window of one kick only. */
  lemma WindowsDisjoint(kicks: seq<Row>, close: Row, i: nat, j: nat)
    requires PlacedInOrder(kicks) && close.Position().Some? && i < |kicks| && j < |kicks|
    requires InWindow(kicks[i], NewerThan(kicks, i), close) && InWindow(kicks[j], NewerThan(kicks, j), close)
    ensures i == j
  {
    hide InWindow;
    if i < j {
      NotInNewerWindow(kicks, close, i, j);
    } else if j < i {
      NotInNewerWindow(kicks, close, j, i);
    }
  }

  /** And to one, if it comes after some kick and shares no kick's position: the newest
      kick before it. */
  lemma {:induction false} WindowsCover(kicks: seq<Row>, close: Row, n: nat) returns (i: nat)
    requires PlacedInOrder(kicks) && close.Position().Some? && n < |kicks|
    requires kicks[n].Position().value.Before(close.Position().value)
    requires forall k :: k in kicks ==> k.Position() != close.Position()
    ensures i <= n && InWindow(kicks[i], NewerThan(kicks, i), close)
  {
    i := n;
    if n > 0 {
      assert kicks[n - 1] in kicks;
      if kicks[n - 1].Position().value.Before(close.Position().value) {
        i := WindowsCover(kicks, close, n - 1);
      }
    }
  }

  /** Kicks with creation times, each created after the next in the list. */
  ghost predicate CreatedInOrder(kicks: seq<Row>) {
    && (forall i :: 0 <= i < |kicks| ==> kicks[i].createdAt.Some?)
    && (forall i, j :: 0 <= i < j < |kicks| ==> kicks[j].createdAt.value < kicks[i].createdAt.value)
  }

  /** A close not on chain yet is placed by its creation time: between the times of two
      neighbours it belongs to the older one's window and to no other. */
  lemma UnplacedWindow(kicks: seq<Row>, close: Row, i: nat, j: nat)
    requires CreatedInOrder(kicks) && i < |kicks| && j < |kicks|
    requires close.Position().None? && close.createdAt.Some?
    requires kicks[i].createdAt.value < close.createdAt.value
    requires i > 0 ==> close.createdAt.value < kicks[i - 1].createdAt.value
    ensures InWindow(kicks[j], NewerThan(kicks, j), close) <==> j == i
  {
    if j > i {
      assert kicks[j - 1].createdAt.value < close.createdAt.value by {
        assert j - 1 == i || kicks[j - 1].createdAt.value < kicks[i].createdAt.value;
      }
    } else if j < i {
      assert close.createdAt.value < kicks[j].createdAt.value by {
        assert j == i - 1 || kicks[i - 1].createdAt.value < kicks[j].createdAt.value;
      }
    }
  }

  function RoundOf(rows: seq<Row>, kick: Row, newer: Option<Row>): (e: Evidence)
    ensures e.kickId == kick.id
  {
    if HasStrayClose(rows, kick, newer) then Verdict(Unknown, UnlinkedLogicalClose, kick)
    else ClassifyRound(kick, rows)
  }

  function NewerThan(kicks: seq<Row>, i: nat): Option<Row>
    requires i < |kicks|
  {
    if i == 0 then None else Some(kicks[i - 1])
  }

  /** Every retained round of the pair, newest first. */
  function AllRounds(rows: seq<Row>): (s: seq<Evidence>)
    ensures |s| == |KicksNewestFirst(rows)|
  {
    var kicks := KicksNewestFirst(rows);
    seq(|kicks|, i requires 0 <= i < |kicks| => RoundOf(rows, kicks[i], NewerThan(kicks, i)))
  }

  predicate Baselined(rows: seq<Row>, kickId: int) {
    exists r :: r in rows && r.op.Kick? && r.baseline && r.id == kickId
  }

  function BeforeBaseline(rows: seq<Row>, rounds: seq<Evidence>): (s: seq<Evidence>)
    ensures s <= rounds
    ensures forall e :: e in s ==> !Baselined(rows, e.kickId)
    ensures |s| < |rounds| ==> Baselined(rows, rounds[|s|].kickId)
  {
    if |rounds| == 0 || Baselined(rows, rounds[0].kickId) then []
    else [rounds[0]] + BeforeBaseline(rows, rounds[1..])
  }

  /** The rounds newer than the newest reviewed baseline. */
  function CurrentRounds(rows: seq<Row>): seq<Evidence> {
    BeforeBaseline(rows, AllRounds(rows))
  }

  datatype ClearError = NothingCompleted | Ambiguous(kickId: int) | AlreadyProductive
  datatype ClearPlan = ClearPlan(baselineKickId: int, newerKickIds: seq<int>)

  function PlanFrom(rounds: seq<Evidence>, newer: seq<int>): Result<ClearPlan, ClearError>
    decreases |rounds|
  {
    if |rounds| == 0 then Err(NothingCompleted)
    else match rounds[0].outcome
      case NoFill => Ok(ClearPlan(rounds[0].kickId, newer))
      case Incomplete => PlanFrom(rounds[1..], newer + [rounds[0].kickId])
      case Unknown => Err(Ambiguous(rounds[0].kickId))
      case Productive => Err(AlreadyProductive)
  }

  function PlanClear(rows: seq<Row>): Result<ClearPlan, ClearError> {
    PlanFrom(CurrentRounds(rows), [])
  }

  method PlanNoFillSuspensionClear(rows: seq<Row>) returns (r: Result<ClearPlan, ClearError>)
    ensures r == PlanClear(rows)
  {
    var current := CurrentRounds(rows);
    var newer: seq<int> := [];
    for i := 0 to |current|
      invariant PlanFrom(current, []) == PlanFrom(current[i..], newer)
    {
      assert current[i..][1..] == current[i + 1..];
      match current[i].outcome
      case NoFill => return Ok(ClearPlan(current[i].kickId, newer));
      case Incomplete => newer := newer + [current[i].kickId];
      case Unknown => return Err(Ambiguous(current[i].kickId));
      case Productive => return Err(AlreadyProductive);
    }
    assert current[|current|..] == [];
    return Err(NothingCompleted);
  }

  ghost predicate UniqueIds(rows: seq<Row>) {
    forall i, j :: 0 <= i < j < |rows| ==> rows[i].id != rows[j].id
  }

  lemma {:induction false} InsertUnique(kicks: seq<Row>, k: Row)
    requires UniqueIds(kicks) && forall r :: r in kicks ==> r.id != k.id
    ensures UniqueIds(InsertNewestFirst(kicks, k))
  {
    if |kicks| > 0 && Older(k, kicks[0]) {
      InsertUnique(kicks[1..], k);
      var rest := InsertNewestFirst(kicks[1..], k);
      forall j | 0 <= j < |rest| ensures rest[j].id != kicks[0].id {
        assert rest[j] in multiset(rest);
        assert rest[j] in kicks[1..] || rest[j] == k;
      }
    }
  }

  lemma {:induction false} KicksUnique(rows: seq<Row>)
    requires UniqueIds(rows)
    ensures UniqueIds(KicksNewestFirst(rows))
  {
    if |rows| > 0 {
      var init, last := rows[..|rows| - 1], rows[|rows| - 1];
      KicksUnique(init);
      KickMembers(init);
      if ActiveKick(last) {
        InsertUnique(KicksNewestFirst(init), last);
      }
    }
  }

  lemma RoundIds(rows: seq<Row>)
    ensures |AllRounds(rows)| == |KicksNewestFirst(rows)|
    ensures forall i :: 0 <= i < |AllRounds(rows)| ==> AllRounds(rows)[i].kickId == KicksNewestFirst(rows)[i].id
  {
    hide KicksNewestFirst, RoundOf;
  }

  lemma CurrentIsPrefix(rows: seq<Row>)
    ensures CurrentRounds(rows) <= AllRounds(rows)
  {
    hide AllRounds;
  }
}
