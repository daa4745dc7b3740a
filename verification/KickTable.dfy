/** The kick operation table and its lookups (KickTxRepository in
    tidal/persistence/repositories.py). Rows are kept in id order. */
module KickTable {
  import opened Common
  import opened Rounds

  // ------------------------------------------------------------- selections

  predicate OfPair(r: Row, auction: string, token: string) {
    r.auction == auction && r.token == token && !r.op.OtherOp?
  }

  function InPair(auction: string, token: string): Row -> bool {
    (r: Row) => OfPair(r, auction, token)
  }

  function PairOperations(rows: seq<Row>, auction: string, token: string): seq<Row> {
    Filter(InPair(auction, token), rows)
  }

  /** Some confirmed close of the pair names this kick. */
  predicate HasConfirmedClose(rows: seq<Row>, auction: string, token: string, kickId: int) {
    exists r :: r in rows && OfPair(r, auction, token) && r.link == Some(kickId) && r.status.Confirmed?
        && r.ClosesRound()
  }

  /** A kick a new recovery may be attributed to: confirmed, unclosed, and strictly before
      the given position when there is one. */
  predicate Candidate(rows: seq<Row>, auction: string, token: string, before: Option<Pos>, k: Row) {
    && OfPair(k, auction, token) && k.op.Kick? && k.status.Confirmed?
    && !HasConfirmedClose(rows, auction, token, k.id)
    && (before.Some? ==> k.Position().Some? && k.Position().value.Before(before.value))
  }

  function CandidateIn(rows: seq<Row>, auction: string, token: string, before: Option<Pos>): Row -> bool {
    (r: Row) => Candidate(rows, auction, token, before, r)
  }

  /** The source's sort key: an absent or zero coordinate counts as -1. */
  function KeyPart(o: Option<nat>): int {
    if o.None? || o.value == 0 then -1 else o.value
  }

  predicate KeyLess(a: Row, b: Row) {
    var ab, bb, ai, bi := KeyPart(a.block), KeyPart(b.block), KeyPart(a.txIndex), KeyPart(b.txIndex);
    ab < bb || (ab == bb && (ai < bi || (ai == bi && a.id < b.id)))
  }

  /** The row with the greatest key, if any. */
  function Newest(rows: seq<Row>): (m: Option<Row>)
    ensures m.None? <==> rows == []
    ensures m.Some? ==> m.value in rows && forall r :: r in rows ==> !KeyLess(m.value, r)
  {
    if |rows| == 0 then None
    else
      var init, last := Newest(rows[..|rows| - 1]), rows[|rows| - 1];
      assert rows == rows[..|rows| - 1] + [last];
      if init.Some? && !KeyLess(init.value, last) then init else Some(last)
  }

  function LatestUnclosedKick(rows: seq<Row>, auction: string, token: string, before: Option<Pos>): (k: Option<Row>)
    ensures k.Some? ==> k.value in rows && Candidate(rows, auction, token, before, k.value)
    ensures k.Some? ==> forall r :: r in rows && Candidate(rows, auction, token, before, r) ==> !KeyLess(k.value, r)
    ensures k.None? ==> forall r :: r in rows ==> !Candidate(rows, auction, token, before, r)
  {
    Newest(Filter(CandidateIn(rows, auction, token, before), rows))
  }

  /** A confirmed kick of the pair, strictly before the position, that no confirmed
      settlement and no confirmed resolve on paths 1, 3, 4 and 5 of the pair names. */
  ghost predicate UnclosedBefore(rows: seq<Row>, auction: string, token: string, pos: Pos, k: Row) {
    && k in rows && k.op == Kick && k.status == Confirmed && k.auction == auction && k.token == token
    && k.Position().Some? && k.Position().value.Before(pos)
    && forall r :: r in rows && r.status == Confirmed && r.auction == auction && r.token == token
                   && r.link == Some(k.id) ==>
         && r.op != Settled
         && (r.op == Resolve ==> r.path.None? || r.path.value !in {1, 3, 4, 5})
  }

  predicate Later(a: Row, b: Row)
    requires a.Position().Some? && b.Position().Some?
  {
    b.Position().value.Before(a.Position().value) || (a.Position() == b.Position() && b.id < a.id)
  }

  lemma CandidateMeans(rows: seq<Row>, auction: string, token: string, pos: Pos, k: Row)
    ensures UnclosedBefore(rows, auction, token, pos, k) <==>
            k in rows && Candidate(rows, auction, token, Some(pos), k)
  {
    if HasConfirmedClose(rows, auction, token, k.id) {
      var r :| r in rows && OfPair(r, auction, token) && r.link == Some(k.id) && r.status.Confirmed?
               && r.ClosesRound();
      assert !UnclosedBefore(rows, auction, token, pos, k);
    } else if k in rows && Candidate(rows, auction, token, Some(pos), k) {
      forall r | r in rows && r.status == Confirmed && r.auction == auction && r.token == token
                 && r.link == Some(k.id)
        ensures r.op != Settled && (r.op == Resolve ==> r.path.None? || r.path.value !in {1, 3, 4, 5})
      {
        assert OfPair(r, auction, token) ==> !r.ClosesRound();
      }
    }
  }

  /** Before a position the lookup finds the latest unclosed kick in chain order, the higher
      id if two share a transaction, and nothing exactly if there is none. */
  lemma LookupIsLatest(rows: seq<Row>, auction: string, token: string, pos: Pos)
    requires forall a, b :: a in rows && b in rows && a.id == b.id ==> a == b
    ensures var m := LatestUnclosedKick(rows, auction, token, Some(pos));
            && (m.None? <==> forall k :: !UnclosedBefore(rows, auction, token, pos, k))
            && forall k :: m == Some(k) <==>
                 && UnclosedBefore(rows, auction, token, pos, k)
                 && forall r :: UnclosedBefore(rows, auction, token, pos, r) && r != k ==> Later(k, r)
  {
    var m := LatestUnclosedKick(rows, auction, token, Some(pos));
    forall k ensures UnclosedBefore(rows, auction, token, pos, k) <==>
                     k in rows && Candidate(rows, auction, token, Some(pos), k)
    {
      CandidateMeans(rows, auction, token, pos, k);
    }
    hide LatestUnclosedKick, Candidate, UnclosedBefore;
    forall a, b | a in rows && b in rows && a != b && a.Position().Some? && b.Position().Some?
      ensures KeyLess(a, b) <==> Later(b, a)
      ensures !(Later(a, b) && Later(b, a)) && (Later(a, b) || Later(b, a))
    {
      assert a.id != b.id;
    }
    if m.Some? {
      LatestAmong(rows, auction, token, pos, m.value);
    }
  }

  lemma LatestAmong(rows: seq<Row>, auction: string, token: string, pos: Pos, m: Row)
    requires LatestUnclosedKick(rows, auction, token, Some(pos)) == Some(m)
    ensures UnclosedBefore(rows, auction, token, pos, m)
  {
    hide LatestUnclosedKick;
    CandidateMeans(rows, auction, token, pos, m);
  }

  /** The later of two rows when coordinates may be missing: those count like zero. */
  predicate LaterOrMissing(a: Row, b: Row) {
    var ab, bb, ai, bi := a.block.GetOr(0), b.block.GetOr(0), a.txIndex.GetOr(0), b.txIndex.GetOr(0);
    bb < ab || (bb == ab && (bi < ai || (bi == ai && b.id < a.id)))
  }

  /** Whatever the bound, no other candidate is later than the one found. */
  lemma LookupIsLast(rows: seq<Row>, auction: string, token: string, before: Option<Pos>, r: Row)
    requires forall a, b :: a in rows && b in rows && a.id == b.id ==> a == b
    requires r in rows && Candidate(rows, auction, token, before, r)
    ensures var m := LatestUnclosedKick(rows, auction, token, before);
            m.Some? && (m.value != r ==> LaterOrMissing(m.value, r))
  {
    hide LatestUnclosedKick, Candidate;
    var m := LatestUnclosedKick(rows, auction, token, before);
    assert !KeyLess(m.value, r) && (m.value.id == r.id ==> m.value == r);
  }

  predicate IsExact(r: Row, op: Op, tx: string, auction: string, token: string) {
    r.op == op && r.tx == Some(tx) && r.auction == auction && r.token == token
  }

  predicate HasExact(rows: seq<Row>, op: Op, tx: string, auction: string, token: string) {
    exists r :: r in rows && IsExact(r, op, tx, auction, token)
  }

  // ------------------------------------------------------------------ table

  /** Ids are unique and ascend in table order. */
  ghost predicate Ascending(rows: seq<Row>) {
    forall i, j :: 0 <= i < j < |rows| ==> rows[i].id < rows[j].id
  }

  /** The table with the row of this id replaced. */
  function SetRow(rows: seq<Row>, row: Row): (s: seq<Row>)
    ensures |s| == |rows|
    ensures forall i :: 0 <= i < |s| ==> s[i] == if rows[i].id == row.id then row else rows[i]
  {
    seq(|rows|, i requires 0 <= i < |rows| => if rows[i].id == row.id then row else rows[i])
  }

  class KickTxTable {
    var rows: seq<Row>
    var nextId: int

    ghost predicate Valid()
      reads this
    {
      Ascending(rows) && forall r :: r in rows ==> r.id < nextId
    }

    constructor ()
      ensures Valid() && rows == []
    {
      rows, nextId := [], 1;
    }

    method Insert(row: Row) returns (id: int)
      requires Valid()
      modifies this
      ensures Valid()
      ensures id == old(nextId) && nextId == id + 1
      ensures rows == old(rows) + [row.(id := id)]
    {
      id := nextId;
      rows := rows + [row.(id := id)];
      nextId := nextId + 1;
    }

    /** Replace the columns of one row; a missing id changes nothing. */
    method Update(row: Row)
      requires Valid()
      modifies this`rows
      ensures Valid()
      ensures rows == SetRow(old(rows), row)
    {
      rows := SetRow(rows, row);
    }

    /** The lookup as the source runs it: collect the closed ids, then the candidates. */
    method LatestConfirmedUnclosedKick(auction: string, token: string, before: Option<Pos>) returns (k: Option<Row>)
      ensures k == LatestUnclosedKick(rows, auction, token, before)
    {
      hide Filter, Newest, Candidate, HasConfirmedClose;
      var ops := PairOperations(rows, auction, token);
      var closed := ClosedIds(ops);
      ClosedMeans(rows, auction, token);
      var candidates := CollectCandidates(rows, ops, closed, auction, token, before);
      CandidatesOfPair(auction, token, before, rows);
      k := Newest(candidates);
    }
  }

  /** A confirmed close among these operations names the id. */
  predicate ClosedIn(ops: seq<Row>, id: int) {
    exists j :: 0 <= j < |ops| && ops[j].link == Some(id) && ops[j].status.Confirmed? && ops[j].ClosesRound()
  }

  lemma ClosedMeans(rows: seq<Row>, auction: string, token: string)
    ensures forall id :: ClosedIn(PairOperations(rows, auction, token), id) <==>
            HasConfirmedClose(rows, auction, token, id)
  {
    hide Filter;
    var ops := PairOperations(rows, auction, token);
    forall id ensures ClosedIn(ops, id) <==> HasConfirmedClose(rows, auction, token, id) {
      if HasConfirmedClose(rows, auction, token, id) {
        var r :| r in rows && OfPair(r, auction, token) && r.link == Some(id) && r.status.Confirmed? && r.ClosesRound();
        assert r in ops;
      }
      if ClosedIn(ops, id) {
        var j :| 0 <= j < |ops| && ops[j].link == Some(id) && ops[j].status.Confirmed? && ops[j].ClosesRound();
        assert ops[j] in ops;
      }
    }
  }

  method ClosedIds(ops: seq<Row>) returns (closed: set<int>)
    ensures forall id :: id in closed <==> ClosedIn(ops, id)
  {
    closed := {};
    for i := 0 to |ops|
      invariant forall id :: id in closed <==>
                  exists j :: 0 <= j < i && ops[j].link == Some(id) && ops[j].status.Confirmed? && ops[j].ClosesRound()
    {
      if ops[i].link.Some? && ops[i].status.Confirmed? && ops[i].ClosesRound() {
        closed := closed + {ops[i].link.value};
      }
    }
  }

  method CollectCandidates(rows: seq<Row>, ops: seq<Row>, closed: set<int>, auction: string, token: string,
      before: Option<Pos>)
      returns (candidates: seq<Row>)
    requires ops == PairOperations(rows, auction, token)
    requires forall id :: id in closed <==> HasConfirmedClose(rows, auction, token, id)
    ensures candidates == Filter(CandidateIn(rows, auction, token, before), ops)
  {
    hide Filter, HasConfirmedClose;
    var isCandidate := CandidateIn(rows, auction, token, before);
    candidates := [];
    assert ops[..0] == [] && Filter(isCandidate, []) == [];
    for i := 0 to |ops|
      invariant candidates == Filter(isCandidate, ops[..i])
    {
      var row := ops[i];
      FilterAppend(isCandidate, ops[..i], row);
      assert ops[..i + 1] == ops[..i] + [row];
      assert row in ops;
      if !row.op.Kick? || !row.status.Confirmed? {
        continue;
      }
      if row.id in closed {
        continue;
      }
      if before.Some? {
        if row.block.None? || row.txIndex.None? {
          continue;
        }
        if !Pos(row.block.value, row.txIndex.value).Before(before.value) {
          continue;
        }
      }
      candidates := candidates + [row];
    }
    assert ops[..|ops|] == ops;
  }

  lemma CandidatesOfPair(auction: string, token: string, before: Option<Pos>, rows: seq<Row>)
    ensures Filter(CandidateIn(rows, auction, token, before), PairOperations(rows, auction, token))
            == Filter(CandidateIn(rows, auction, token, before), rows)
  {
    hide Filter, HasConfirmedClose;
    FilterTwice(InPair(auction, token), CandidateIn(rows, auction, token, before), rows);
  }

  /** A filter that implies an earlier one absorbs it. */
  lemma {:induction false} FilterTwice(p: Row -> bool, q: Row -> bool, s: seq<Row>)
    requires forall r :: q(r) ==> p(r)
    ensures Filter(q, Filter(p, s)) == Filter(q, s)
  {
    if |s| > 0 {
      var init, last := s[..|s| - 1], s[|s| - 1];
      FilterTwice(p, q, init);
      if p(last) {
        FilterAppend(q, Filter(p, init), last);
      }
    }
  }
}
