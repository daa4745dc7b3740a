/** Links as chain order makes them: what a table keeps when rows are confirmed in chain
    order, what a rebuild of such a table does to its rounds. All rows belong to one pair. */
module ChainLinks {
  import opened Common
  import opened Rounds
  import opened PairHistory
  import opened Baselines
  import opened KickTable
  import opened RoundLinks
  import opened LinkLaws
  import opened FrozenRounds

  // --------------------------------------------------------------- invariant

  function At(r: Row): Pos {
    r.Position().GetOr(Pos(0, 0))
  }

  /** A confirmed row with its place on chain. */
  predicate Placed(r: Row) {
    r.status.Confirmed? && r.Position().Some?
  }

  predicate Kicked(rows: seq<Row>, k: Row) {
    k in rows && k.op.Kick? && Placed(k)
  }

  predicate Recovered(rows: seq<Row>, r: Row) {
    r in rows && IsRecovery(r) && Placed(r)
  }

  predicate Path0(r: Row) {
    r.op.Resolve? && r.path == Some(0)
  }

  /** Its receipt said nothing about what it did. */
  predicate Blank(r: Row) {
    (r.op.Resolve? && r.path.None?) || (r.op.Sweep? && r.amount.None?)
  }

  ghost predicate OpensFor(rows: seq<Row>, r: Row, k: Row) {
    r.Position().Some? && OpenBefore(rows, r, k)
  }

  ghost predicate NoneOpen(rows: seq<Row>, r: Row) {
    forall k :: !OpensFor(rows, r, k)
  }

  /** The kick's round is closed by a row that chain order puts in it. */
  ghost predicate CanonClosed(rows: seq<Row>, k: Row) {
    exists c :: Recovered(rows, c) && c.ClosesRound() && c.link == Some(k.id) && OpensFor(rows, c, k)
  }

  /** A linked recovery is on its canonical link, or came after its round was over. */
  ghost predicate WellLinked(rows: seq<Row>, r: Row, k: Row) {
    && Kicked(rows, k) && r.link == Some(k.id)
    && (OpensFor(rows, r, k) || (NoneOpen(rows, r) && CanonClosed(rows, k)))
  }

  ghost predicate Attributed1(rows: seq<Row>, r: Row) {
    if r.link.Some? then !Path0(r) && exists k :: WellLinked(rows, r, k)
    else Path0(r) || Blank(r) || NoneOpen(rows, r)
  }

  ghost predicate Attributed(rows: seq<Row>) {
    forall r :: Recovered(rows, r) ==> Attributed1(rows, r)
  }

  /** No kick shares its place with another confirmed row, and kicks were mined in the
      order they were submitted. */
  ghost predicate KicksApart(rows: seq<Row>) {
    && (forall k, x :: Kicked(rows, k) && x in rows && Placed(x) && x != k ==>
        At(k).Before(At(x)) || At(x).Before(At(k)))
    && (forall a, b :: Kicked(rows, a) && Kicked(rows, b) && Older(a, b) ==> At(a).Before(At(b)))
  }

  /** A kick followed on chain by another kick or a close is closed. */
  ghost predicate MarksClose(rows: seq<Row>) {
    forall k, x :: Kicked(rows, k) && x in rows && Placed(x) && IsMark(x) && ChainLess(k, x) ==> CanonClosed(rows, k)
  }

  /** Recoveries still in flight name confirmed kicks. */
  ghost predicate Aimed(rows: seq<Row>) {
    forall r :: r in rows && r.status.Submitted? && r.link.Some? ==> exists k :: Kicked(rows, k) && k.id == r.link.value
  }

  ghost predicate Tainted(rows: seq<Row>, k: Row) {
    exists b :: Recovered(rows, b) && Blank(b) && b.link == Some(k.id) && OpensFor(rows, b, k)
  }

  /** A settled round the guard has let pass is complete, or a row without evidence was
      attached to it since. */
  ghost predicate Judged(rows: seq<Row>, kicks: seq<Row>) {
    forall k :: SettledKick(kicks, k) && !k.baseline ==> ClassifyRound(k, rows).Completed() || Tainted(rows, k)
  }

  ghost predicate Chained(rows: seq<Row>) {
    Attributed(rows) && KicksApart(rows) && MarksClose(rows) && Aimed(rows)
  }

  // ------------------------------------------------------- reading it back

  lemma OpenUnique(rows: seq<Row>, r: Row, a: Row, b: Row)
    requires Ascending(rows) && OpensFor(rows, r, a) && OpensFor(rows, r, b)
    ensures a == b
  {
    LatestMarkUnique(rows, r, a, b);
    SameIdSame(rows, a, b);
  }

  /** In an attributed table a closed round is closed where the chain closes it. */
  lemma ClosedIsCanon(rows: seq<Row>, k: Row)
    requires Ascending(rows) && Attributed(rows) && Kicked(rows, k) && HasClose(rows, k.id)
    requires forall r :: r in rows && r.status.Confirmed? ==> r.Position().Some?
    requires forall r :: r in rows && r.op.Kick? ==> r.link.None?
    requires forall r :: r in rows ==> !r.op.OtherOp?
    ensures CanonClosed(rows, k)
  {
    hide CanonClosed, NoneOpen, OpensFor;
    var r :| r in rows && r.link == Some(k.id) && r.status.Confirmed? && r.ClosesRound();
    assert Recovered(rows, r);
    assert Attributed1(rows, r);
    var m :| WellLinked(rows, r, m);
    SameIdSame(rows, m, k);
    if OpensFor(rows, r, m) {
      ShowClosed(rows, k, r);
    }
  }

  lemma ShowClosed(rows: seq<Row>, k: Row, c: Row)
    requires Recovered(rows, c) && c.ClosesRound() && c.link == Some(k.id) && OpensFor(rows, c, k)
    ensures CanonClosed(rows, k)
  {
  }

  lemma CanonIsClosed(rows: seq<Row>, k: Row)
    requires CanonClosed(rows, k)
    ensures HasClose(rows, k.id)
  {
    hide OpensFor;
  }

  // ---------------------------------------------------- a row lands at the end

  /** The confirmed rows are those of before and one more, after all of them on chain, and
      strictly so if either is a kick. */
  ghost predicate Landed(rows: seq<Row>, after: seq<Row>, row: Row) {
    && Placed(row) && row !in rows
    && (forall x: Row :: x.status.Confirmed? ==> (x in after <==> x in rows || x == row))
    && (forall x :: x in rows && Placed(x) ==>
          ChainLess(x, row) && (x.op.Kick? || row.op.Kick? ==> At(x).Before(At(row))))
  }

  lemma LandedOpen(rows: seq<Row>, after: seq<Row>, row: Row, r: Row, k: Row)
    requires Landed(rows, after, row) && r in rows && Placed(r)
    ensures OpensFor(after, r, k) <==> OpensFor(rows, r, k)
  {
    assert ChainLess(r, row);
    if OpensFor(rows, r, k) {
      forall x | x in after && OnChain(x, r.auction, r.token) && IsMark(x) && ChainLess(x, r) ensures !ChainLess(k, x) {
        assert x in rows;
      }
    }
    if OpensFor(after, r, k) {
      assert k in rows;
    }
  }

  lemma LandedStays(rows: seq<Row>, after: seq<Row>, row: Row, r: Row)
    requires Landed(rows, after, row) && r in rows && Placed(r)
    ensures NoneOpen(after, r) <==> NoneOpen(rows, r)
    ensures forall k :: OpensFor(after, r, k) <==> OpensFor(rows, r, k)
  {
    hide OpensFor, Landed;
    forall k ensures OpensFor(after, r, k) <==> OpensFor(rows, r, k) {
      LandedOpen(rows, after, row, r, k);
    }
  }

  lemma LandedClosed(rows: seq<Row>, after: seq<Row>, row: Row, k: Row)
    requires Landed(rows, after, row) && CanonClosed(rows, k)
    ensures CanonClosed(after, k)
  {
    hide OpensFor, NoneOpen;
    var c :| Recovered(rows, c) && c.ClosesRound() && c.link == Some(k.id) && OpensFor(rows, c, k);
    LandedStays(rows, after, row, c);
    ShowClosed(after, k, c);
  }

  lemma LandedAttributed(rows: seq<Row>, after: seq<Row>, row: Row, r: Row)
    requires Landed(rows, after, row) && Recovered(rows, r) && Attributed1(rows, r)
    ensures Attributed1(after, r)
  {
    hide OpensFor, NoneOpen, CanonClosed;
    LandedStays(rows, after, row, r);
    if r.link.Some? {
      var k :| WellLinked(rows, r, k);
      if CanonClosed(rows, k) {
        LandedClosed(rows, after, row, k);
      }
      assert WellLinked(after, r, k);
    }
  }

  /** The one kick that may still lack a close. */
  ghost predicate OneUnclosed(rows: seq<Row>) {
    forall a, b :: Kicked(rows, a) && Kicked(rows, b) && !HasClose(rows, a.id) && !HasClose(rows, b.id) ==> a == b
  }

  ghost predicate AllClosed(rows: seq<Row>) {
    forall k :: Kicked(rows, k) ==> HasClose(rows, k.id)
  }

  /** Facts of the table every step keeps. */
  ghost predicate Sane(rows: seq<Row>) {
    && Ascending(rows) && OneUnclosed(rows)
    && forall r :: r in rows ==>
         && !r.op.OtherOp? && (r.op.Kick? ==> r.link.None?)
         && (r.status.Confirmed? ==> r.Position().Some?)
         && forall x :: x in rows ==> r.SamePair(x)
  }

  /** A landing recovery's link: the unclosed round; a round over by then; or none. */
  ghost predicate LinkFits(rows: seq<Row>, row: Row) {
    if row.link.None? then Path0(row) || Blank(row) || AllClosed(rows)
    else !Path0(row) &&
         exists k :: Kicked(rows, k) && k.id == row.link.value && (!HasClose(rows, k.id) || AllClosed(rows))
  }

  /** The open round at the end of the chain is the one the table leaves unclosed. */
  lemma OpenAtEnd(rows: seq<Row>, after: seq<Row>, row: Row, k: Row)
    requires Sane(rows) && Chained(rows) && Landed(rows, after, row)
    requires forall x :: x in rows ==> x.SamePair(row)
    ensures OpensFor(after, row, k) <==> Kicked(rows, k) && !HasClose(rows, k.id)
  {
    hide CanonClosed, Attributed, NoneOpen;
    if OpensFor(after, row, k) {
      assert Kicked(rows, k);
      if HasClose(rows, k.id) {
        ClosedIsCanon(rows, k);
        ClosedBlocks(rows, after, row, k);
      }
    }
    if Kicked(rows, k) && !HasClose(rows, k.id) {
      forall x | x in after && OnChain(x, row.auction, row.token) && IsMark(x) && ChainLess(x, row)
        ensures !ChainLess(k, x)
      {
        assert x in rows;
        if ChainLess(k, x) {
          CanonIsClosed(rows, k);
        }
      }
      assert ChainLess(k, row);
    }
  }

  lemma ClosedBlocks(rows: seq<Row>, after: seq<Row>, row: Row, k: Row)
    requires Landed(rows, after, row) && CanonClosed(rows, k)
    requires forall x :: x in rows ==> x.SamePair(row)
    ensures !OpensFor(after, row, k)
  {
    var c :| Recovered(rows, c) && c.ClosesRound() && c.link == Some(k.id) && OpensFor(rows, c, k);
    assert c in after && ChainLess(c, row) && ChainLess(k, c);
  }

  /** What a landing row must bring: a kick finds every round closed and is the youngest; a
      recovery is linked as the lookup, or its submission, links it. */
  ghost predicate Fits(rows: seq<Row>, row: Row) {
    && !row.op.OtherOp? && (forall x :: x in rows ==> x.SamePair(row))
    && if row.op.Kick? then AllClosed(rows) && forall x :: Kicked(rows, x) ==> Older(x, row)
       else LinkFits(rows, row)
  }

  lemma ClosedLands(rows: seq<Row>, after: seq<Row>, row: Row, k: Row)
    requires Sane(rows) && Chained(rows) && Landed(rows, after, row) && Kicked(rows, k) && HasClose(rows, k.id)
    ensures CanonClosed(after, k)
  {
    hide CanonClosed, Landed;
    ClosedIsCanon(rows, k);
    LandedClosed(rows, after, row, k);
  }

  lemma NewAttributed(rows: seq<Row>, after: seq<Row>, row: Row)
    requires Sane(rows) && Chained(rows) && Landed(rows, after, row) && Fits(rows, row) && IsRecovery(row)
    ensures Attributed1(after, row)
  {
    hide OpensFor, CanonClosed, HasClose, Chained, Path0, Blank;
    forall k ensures OpensFor(after, row, k) <==> Kicked(rows, k) && !HasClose(rows, k.id) {
      OpenAtEnd(rows, after, row, k);
    }
    if row.link.Some? {
      var k :| Kicked(rows, k) && k.id == row.link.value && (!HasClose(rows, k.id) || AllClosed(rows));
      if HasClose(rows, k.id) {
        ClosedLands(rows, after, row, k);
      }
      assert WellLinked(after, row, k);
    }
  }

  lemma NewMark(rows: seq<Row>, after: seq<Row>, row: Row, k: Row)
    requires Sane(rows) && Chained(rows) && Landed(rows, after, row) && Fits(rows, row) && IsMark(row)
    requires Kicked(rows, k)
    ensures CanonClosed(after, k)
  {
    if HasClose(rows, k.id) {
      hide CanonClosed, Landed;
      ClosedLands(rows, after, row, k);
    } else {
      OpenAtEnd(rows, after, row, k);
      hide CanonClosed, Landed, HasClose, OpensFor;
      assert IsRecovery(row) && row.link.Some?;
      assert row.link == Some(k.id);
      ShowClosed(after, k, row);
    }
  }

  lemma LandedApart(rows: seq<Row>, after: seq<Row>, row: Row)
    requires KicksApart(rows) && Landed(rows, after, row) && Fits(rows, row)
    ensures KicksApart(after)
  {
    if row.op.Kick? {
      forall b | Kicked(rows, b) ensures !Older(row, b) {
        OlderAsymmetric(b, row);
      }
    }
  }

  lemma LandedMarks(rows: seq<Row>, after: seq<Row>, row: Row)
    requires Sane(rows) && Chained(rows) && Landed(rows, after, row) && Fits(rows, row)
    ensures MarksClose(after)
  {
    forall k, x | Kicked(after, k) && x in after && Placed(x) && IsMark(x) && ChainLess(k, x)
      ensures CanonClosed(after, k)
    {
      if x == row {
        NewMark(rows, after, row, k);
      } else {
        LandedClosed(rows, after, row, k);
      }
    }
  }

  /** A table stays chained when a fitting row lands. */
  lemma LandingChained(rows: seq<Row>, after: seq<Row>, row: Row)
    requires Sane(rows) && Chained(rows) && Landed(rows, after, row) && Fits(rows, row)
    requires forall x: Row :: x in after && x.status.Submitted? ==> x in rows
    ensures Chained(after)
  {
    forall r | Recovered(after, r) ensures Attributed1(after, r) {
      if r == row {
        NewAttributed(rows, after, row);
      } else {
        LandedAttributed(rows, after, row, r);
      }
    }
    LandedApart(rows, after, row);
    LandedMarks(rows, after, row);
    forall r | r in after && r.status.Submitted? && r.link.Some?
      ensures exists k :: Kicked(after, k) && k.id == r.link.value
    {
      var k :| Kicked(rows, k) && k.id == r.link.value;
      assert Kicked(after, k);
    }
  }

  // ------------------------------------------------- no confirmed row changes

  /** The same confirmed rows; what is in flight was, or names a confirmed kick. */
  ghost predicate SameRecord(rows: seq<Row>, after: seq<Row>) {
    && (forall x: Row :: x.status.Confirmed? ==> (x in after <==> x in rows))
    && (forall x: Row :: x in after && x.status.Submitted? ==>
          x in rows || (x.link.Some? ==> exists k :: Kicked(rows, k) && k.id == x.link.value))
  }

  lemma SameOpen(rows: seq<Row>, after: seq<Row>, r: Row, k: Row)
    requires SameRecord(rows, after)
    ensures OpensFor(after, r, k) <==> OpensFor(rows, r, k)
  {
  }

  lemma SameClosed(rows: seq<Row>, after: seq<Row>, k: Row)
    requires SameRecord(rows, after) && CanonClosed(rows, k)
    ensures CanonClosed(after, k)
  {
    hide OpensFor;
    var c :| Recovered(rows, c) && c.ClosesRound() && c.link == Some(k.id) && OpensFor(rows, c, k);
    SameOpen(rows, after, c, k);
    assert Recovered(after, c);
  }

  lemma SameAttributed(rows: seq<Row>, after: seq<Row>, r: Row)
    requires SameRecord(rows, after) && Attributed1(rows, r)
    ensures Attributed1(after, r)
  {
    hide OpensFor, CanonClosed;
    forall k ensures OpensFor(after, r, k) <==> OpensFor(rows, r, k) {
      SameOpen(rows, after, r, k);
    }
    if r.link.Some? {
      var k :| WellLinked(rows, r, k);
      if CanonClosed(rows, k) {
        SameClosed(rows, after, k);
      }
      assert WellLinked(after, r, k);
    }
  }

  lemma SameChained(rows: seq<Row>, after: seq<Row>)
    requires Chained(rows) && SameRecord(rows, after)
    ensures Chained(after)
  {
    hide CanonClosed, Attributed1;
    forall r | Recovered(after, r) ensures Attributed1(after, r) {
      assert Recovered(rows, r);
      SameAttributed(rows, after, r);
    }
    forall k, x | Kicked(after, k) && x in after && Placed(x) && IsMark(x) && ChainLess(k, x)
      ensures CanonClosed(after, k)
    {
      assert Kicked(rows, k);
      SameClosed(rows, after, k);
    }
    assert forall k :: Kicked(rows, k) <==> Kicked(after, k);
  }

  // --------------------------------------------------------------- rebuilding

  lemma RebuiltOpen(rows: seq<Row>, rebuilt: seq<Row>, i: nat, k: Row)
    requires LinksOnly(rows, rebuilt) && i < |rows|
    ensures OpensFor(rebuilt, rebuilt[i], k) <==> OpensFor(rows, rows[i], k)
  {
    hide OpenBefore;
    if OpensFor(rows, rows[i], k) {
      OpenIgnoresLinks(rows, rebuilt, rows[i], rebuilt[i], k);
    }
    if OpensFor(rebuilt, rebuilt[i], k) {
      assert LinksOnly(rebuilt, rows);
      OpenIgnoresLinks(rebuilt, rows, rebuilt[i], rows[i], k);
    }
  }

  /** A row on its canonical link keeps it. */
  lemma CanonicalStays(rows: seq<Row>, rebuilt: seq<Row>, auction: string, token: string, i: nat, k: Row)
    requires Ascending(rows) && Relinked(rows, rebuilt, auction, token) && i < |rows|
    requires Relinkable(rows[i], auction, token) && !Path0(rows[i]) && OpensFor(rows, rows[i], k)
    ensures rebuilt[i].link == Some(k.id)
    ensures rows[i].link == Some(k.id) ==> rebuilt[i] == rows[i]
  {
    hide OpenBefore;
    var link := rebuilt[i].link;
    if link.Some? {
      var m :| OpenBefore(rows, rows[i], m) && link.value == m.id;
      OpenUnique(rows, rows[i], m, k);
    }
  }

  /** After a rebuild a row's link is its canonical one. */
  lemma RebuiltLink(rows: seq<Row>, rebuilt: seq<Row>, auction: string, token: string, i: nat)
    requires Ascending(rows) && Relinked(rows, rebuilt, auction, token) && i < |rows|
    requires Relinkable(rows[i], auction, token)
    ensures rebuilt[i] == rows[i].(link := rebuilt[i].link)
    ensures if rebuilt[i].link.None? then Path0(rows[i]) || NoneOpen(rows, rows[i])
            else !Path0(rows[i]) && exists k :: OpensFor(rows, rows[i], k) && k.id == rebuilt[i].link.value
  {
    hide OpenBefore;
  }

  lemma RebuiltSame(rows: seq<Row>, rebuilt: seq<Row>, auction: string, token: string)
    requires Relinked(rows, rebuilt, auction, token)
    ensures LinksOnly(rows, rebuilt)
    ensures forall k :: Kicked(rebuilt, k) <==> Kicked(rows, k)
    ensures forall x: Row :: x in rebuilt && x.status.Submitted? ==> x in rows
  {
    hide CanonicalLink;
    forall k | Kicked(rows, k) ensures k in rebuilt {
      var i :| 0 <= i < |rows| && rows[i] == k;
      assert rebuilt[i] == k;
    }
    forall x: Row | x in rebuilt && (x.op.Kick? || x.status.Submitted?) ensures x in rows {
      var i :| 0 <= i < |rebuilt| && rebuilt[i] == x;
      assert rows[i] == x;
    }
  }

  lemma RebuiltClosed(rows: seq<Row>, rebuilt: seq<Row>, auction: string, token: string, k: Row)
    requires Ascending(rows) && Relinked(rows, rebuilt, auction, token) && CanonClosed(rows, k)
    requires forall r :: r in rows ==> OfPair(r, auction, token)
    ensures CanonClosed(rebuilt, k)
    ensures forall c :: Recovered(rows, c) && c.ClosesRound() && c.link == Some(k.id) && OpensFor(rows, c, k) ==>
            c in rebuilt
  {
    hide OpensFor, Relinked, LinksOnly;
    RebuiltSame(rows, rebuilt, auction, token);
    forall c | Recovered(rows, c) && c.ClosesRound() && c.link == Some(k.id) && OpensFor(rows, c, k)
      ensures Recovered(rebuilt, c) && OpensFor(rebuilt, c, k)
    {
      var i :| 0 <= i < |rows| && rows[i] == c;
      CanonicalStays(rows, rebuilt, auction, token, i, k);
      RebuiltLength(rows, rebuilt, auction, token);
      RebuiltOpen(rows, rebuilt, i, k);
      assert rebuilt[i] == c;
    }
    var c :| Recovered(rows, c) && c.ClosesRound() && c.link == Some(k.id) && OpensFor(rows, c, k);
    ShowClosed(rebuilt, k, c);
  }

  lemma RebuiltLength(rows: seq<Row>, rebuilt: seq<Row>, auction: string, token: string)
    requires Relinked(rows, rebuilt, auction, token)
    ensures |rebuilt| == |rows|
  {
  }

  lemma RebuiltAttributed(rows: seq<Row>, rebuilt: seq<Row>, auction: string, token: string, i: nat)
    requires Ascending(rows) && Relinked(rows, rebuilt, auction, token) && i < |rows|
    requires Relinkable(rows[i], auction, token) && forall r :: r in rows ==> OfPair(r, auction, token)
    ensures i < |rebuilt| && Attributed1(rebuilt, rebuilt[i])
  {
    hide Relinked, LinksOnly, CanonClosed, OpenBefore;
    RebuiltLength(rows, rebuilt, auction, token);
    RebuiltSame(rows, rebuilt, auction, token);
    RebuiltLink(rows, rebuilt, auction, token, i);
    forall k ensures OpensFor(rebuilt, rebuilt[i], k) <==> OpensFor(rows, rows[i], k) {
      RebuiltOpen(rows, rebuilt, i, k);
    }
    if rebuilt[i].link.Some? {
      var k :| OpensFor(rows, rows[i], k) && k.id == rebuilt[i].link.value;
      OpenIsKick(rows, rows[i], k);
      assert WellLinked(rebuilt, rebuilt[i], k);
    }
  }

  lemma OpenIsKick(rows: seq<Row>, r: Row, k: Row)
    requires OpensFor(rows, r, k)
    ensures Kicked(rows, k)
  {
  }

  lemma RebuiltChained(rows: seq<Row>, rebuilt: seq<Row>, auction: string, token: string)
    requires Ascending(rows) && Chained(rows) && Relinked(rows, rebuilt, auction, token)
    requires forall r :: r in rows ==> OfPair(r, auction, token)
    ensures Chained(rebuilt)
  {
    hide Attributed1, CanonClosed, Relinked, Older;
    RebuiltLength(rows, rebuilt, auction, token);
    RebuiltSame(rows, rebuilt, auction, token);
    forall r | Recovered(rebuilt, r) ensures Attributed1(rebuilt, r) {
      var i :| 0 <= i < |rebuilt| && rebuilt[i] == r;
      assert rows[i] in rows;
      RebuiltAttributed(rows, rebuilt, auction, token, i);
    }
    hide MarksClose, KicksApart, Aimed;
    RebuiltMarks(rows, rebuilt, auction, token);
    RebuiltApart(rows, rebuilt, auction, token);
    RebuiltAimed(rows, rebuilt, auction, token);
  }

  lemma RebuiltApart(rows: seq<Row>, rebuilt: seq<Row>, auction: string, token: string)
    requires KicksApart(rows) && Relinked(rows, rebuilt, auction, token)
    ensures KicksApart(rebuilt)
  {
    hide Relinked, Older;
    RebuiltSame(rows, rebuilt, auction, token);
    forall k, x | Kicked(rebuilt, k) && x in rebuilt && Placed(x) && x != k
      ensures At(k).Before(At(x)) || At(x).Before(At(k))
    {
      var i :| 0 <= i < |rebuilt| && rebuilt[i] == x;
      assert rows[i] in rows && rows[i] == x.(link := rows[i].link) && At(rows[i]) == At(x) && Placed(rows[i]);
      assert rows[i].op.Kick? ==> rows[i] == x;
    }
  }

  lemma RebuiltAimed(rows: seq<Row>, rebuilt: seq<Row>, auction: string, token: string)
    requires Aimed(rows) && Relinked(rows, rebuilt, auction, token)
    ensures Aimed(rebuilt)
  {
    hide Relinked;
    RebuiltSame(rows, rebuilt, auction, token);
  }

  lemma RebuiltMarks(rows: seq<Row>, rebuilt: seq<Row>, auction: string, token: string)
    requires Ascending(rows) && MarksClose(rows) && Relinked(rows, rebuilt, auction, token)
    requires forall r :: r in rows ==> OfPair(r, auction, token)
    ensures MarksClose(rebuilt)
  {
    hide CanonClosed, Relinked;
    RebuiltSame(rows, rebuilt, auction, token);
    forall k, x | Kicked(rebuilt, k) && x in rebuilt && Placed(x) && IsMark(x) && ChainLess(k, x)
      ensures CanonClosed(rebuilt, k)
    {
      var i :| 0 <= i < |rebuilt| && rebuilt[i] == x;
      assert rows[i] in rows && rows[i] == x.(link := rows[i].link);
      assert Placed(rows[i]) && IsMark(rows[i]) && ChainLess(k, rows[i]);
      RebuiltClosed(rows, rebuilt, auction, token, k);
    }
  }

  // ------------------------------------------- evidence under a rebuild

  /** No row without evidence belongs to the kick's round. */
  ghost predicate Clean(rows: seq<Row>, k: Row) {
    forall b :: Recovered(rows, b) && Blank(b) ==> !OpensFor(rows, b, k)
  }

  /** Rows linked to the kick afterwards were linked to it before. */
  ghost predicate OnlyOld(rows: seq<Row>, rebuilt: seq<Row>, kickId: int) {
    |rebuilt| == |rows| && forall i :: 0 <= i < |rows| && rebuilt[i].link == Some(kickId) ==> rebuilt[i] == rows[i]
  }

  lemma CleanOnlyOld(rows: seq<Row>, rebuilt: seq<Row>, auction: string, token: string, k: Row)
    requires Ascending(rows) && Attributed(rows) && Relinked(rows, rebuilt, auction, token)
    requires Kicked(rows, k) && Clean(rows, k)
    ensures OnlyOld(rows, rebuilt, k.id)
  {
    hide OpensFor, CanonClosed, Attributed1, NoneOpen, Blank, Path0;
    RebuiltLength(rows, rebuilt, auction, token);
    forall i | 0 <= i < |rows| && rebuilt[i].link == Some(k.id) ensures rebuilt[i] == rows[i] {
      if Relinkable(rows[i], auction, token) {
        assert rows[i] in rows;
        CleanStays(rows, rebuilt, auction, token, k, i);
      }
    }
  }

  lemma CleanStays(rows: seq<Row>, rebuilt: seq<Row>, auction: string, token: string, k: Row, i: nat)
    requires Ascending(rows) && Attributed(rows) && Relinked(rows, rebuilt, auction, token) && i < |rows|
    requires Kicked(rows, k) && Clean(rows, k) && Relinkable(rows[i], auction, token)
    requires i < |rebuilt| && rebuilt[i].link == Some(k.id)
    ensures rebuilt[i] == rows[i]
  {
    hide Relinked, CanonClosed, OpenBefore;
    var r := rows[i];
    assert r in rows && Recovered(rows, r) && Attributed1(rows, r);
    RebuiltLink(rows, rebuilt, auction, token, i);
    var m :| OpensFor(rows, r, m) && m.id == k.id;
    OpenIsKick(rows, r, m);
    SameIdSame(rows, m, k);
    assert r.link.Some?;
    var n :| WellLinked(rows, r, n);
    OpenUnique(rows, r, n, k);
  }

  lemma {:induction false} GivesLess(rows: seq<Row>, rebuilt: seq<Row>, kickId: int)
    requires OnlyOld(rows, rebuilt, kickId)
    ensures GivenBack(kickId, rebuilt) <= GivenBack(kickId, rows)
  {
    if |rows| > 0 {
      var n := |rows| - 1;
      GivesLess(rows[..n], rebuilt[..n], kickId);
      assert rows == rows[..n] + [rows[n]] && rebuilt == rebuilt[..n] + [rebuilt[n]];
      GivenBackAppend(kickId, rows[..n], rows[n]);
      GivenBackAppend(kickId, rebuilt[..n], rebuilt[n]);
    }
  }

  lemma GivenBackAppend(kickId: int, rows: seq<Row>, r: Row)
    ensures GivenBack(kickId, rows + [r]) == GivenBack(kickId, rows) + if GivesBack(kickId, r) then AMOUNT_OF(r) else 0
    ensures AMOUNT_OF(r) >= 0
  {
    var back := Filter(GivesBackTo(kickId), rows);
    FilterAppend(GivesBackTo(kickId), rows, r);
    MapConcat(AMOUNT_OF, back, [r]);
    assert Amounts([r]) == [AMOUNT_OF(r)];
    SumAppend(Amounts(back), AMOUNT_OF(r));
  }

  lemma {:induction false} FilterPointwise(p: Row -> bool, s: seq<Row>, t: seq<Row>)
    requires |s| == |t| && forall i :: 0 <= i < |s| ==> p(s[i]) == p(t[i]) && (p(t[i]) ==> s[i] == t[i])
    ensures Filter(p, s) == Filter(p, t)
  {
    if |s| > 0 {
      FilterPointwise(p, s[..|s| - 1], t[..|t| - 1]);
    }
  }

  /** Losing linked rows that are not its close, a complete round stays complete. */
  lemma StaysComplete(rows: seq<Row>, rebuilt: seq<Row>, k: Row, c: Row)
    requires Ascending(rows) && OnlyOld(rows, rebuilt, k.id) && CompleteRound(k, rows, c) && c in rebuilt
    requires forall i :: 0 <= i < |rows| ==> rebuilt[i].id == rows[i].id
    ensures CompleteRound(k, rebuilt, c)
  {
    hide Filter, GivenBack, KickUsable;
    var p := ClosesKick(k.id);
    assert c in Filter(p, rows);
    var j :| 0 <= j < |rebuilt| && rebuilt[j] == c;
    assert rows[j] == c;
    forall i | 0 <= i < |rows| ensures p(rebuilt[i]) == p(rows[i]) && (p(rows[i]) ==> rebuilt[i] == rows[i]) {
      if p(rows[i]) {
        assert rows[i] in Filter(p, rows);
        assert rows[i] == c;
        assert rows[i].id == rows[j].id;
        assert i == j;
      }
    }
    FilterPointwise(p, rebuilt, rows);
    GivesLess(rows, rebuilt, k.id);
    forall r | r in rebuilt && r.link == Some(k.id) ensures r in rows {
      var i :| 0 <= i < |rebuilt| && rebuilt[i] == r;
    }
  }

  lemma ForeignRow(k: Row, rows: seq<Row>, b: Row)
    requires b in rows && b.status.Confirmed? && Blank(b) && b.link == Some(k.id)
    ensures !ClassifyRound(k, rows).Completed()
  {
    hide ClassifyRound, Filter, GivenBack, KickUsable;
    CompletedIff(k, rows);
    assert !Sound(k, b);
    assert forall c :: !CompleteRound(k, rows, c);
  }

  /** A rebuild of a chained table leaves a settled round complete or tainted, and gives it
      back no more than it had. */
  lemma RebuiltRound(rows: seq<Row>, rebuilt: seq<Row>, auction: string, token: string, k: Row)
    requires Sane(rows) && Chained(rows) && Relinked(rows, rebuilt, auction, token)
    requires forall r :: r in rows ==> OfPair(r, auction, token)
    requires Kicked(rows, k) && HasClose(rows, k.id)
    requires ClassifyRound(k, rows).Completed() || Tainted(rows, k)
    ensures ClassifyRound(k, rebuilt).Completed() || Tainted(rebuilt, k)
    ensures ClassifyRound(k, rebuilt).outcome.NoFill? ==> ClassifyRound(k, rows).outcome.NoFill?
  {
    hide ClassifyRound, Relinked, CanonClosed, OpensFor, Attributed, KicksApart, MarksClose, Aimed, LinksOnly, HasClose;
    RebuiltLength(rows, rebuilt, auction, token);
    if Clean(rows, k) {
      CleanRound(rows, rebuilt, auction, token, k);
    } else {
      var b :| Recovered(rows, b) && Blank(b) && OpensFor(rows, b, k);
      var i :| 0 <= i < |rows| && rows[i] == b;
      CanonicalStays(rows, rebuilt, auction, token, i, k);
      RebuiltLink(rows, rebuilt, auction, token, i);
      RebuiltSame(rows, rebuilt, auction, token);
      RebuiltOpen(rows, rebuilt, i, k);
      var b' := rebuilt[i];
      assert b' in rebuilt && Recovered(rebuilt, b') && Blank(b') && b'.link == Some(k.id);
      ForeignRow(k, rebuilt, b');
    }
  }

  lemma CleanRound(rows: seq<Row>, rebuilt: seq<Row>, auction: string, token: string, k: Row)
    requires Sane(rows) && Chained(rows) && Relinked(rows, rebuilt, auction, token)
    requires forall r :: r in rows ==> OfPair(r, auction, token)
    requires Kicked(rows, k) && HasClose(rows, k.id) && Clean(rows, k)
    requires ClassifyRound(k, rows).Completed() || Tainted(rows, k)
    ensures ClassifyRound(k, rebuilt).Completed()
    ensures ClassifyRound(k, rebuilt).outcome.NoFill? ==> ClassifyRound(k, rows).outcome.NoFill?
  {
    hide ClassifyRound, Relinked, CanonClosed, OpensFor, KicksApart, MarksClose, Aimed, LinksOnly, HasClose,
         GivenBack, Filter, CompleteRound;
    CleanOnlyOld(rows, rebuilt, auction, token, k);
    hide Clean;
    assert ClassifyRound(k, rows).Completed() by {
      NotTainted(rows, k);
    }
    var c := TheClose(rows, rebuilt, auction, token, k);
    RebuiltIds(rows, rebuilt, auction, token);
    StaysComplete(rows, rebuilt, k, c);
    CompletedIff(k, rebuilt);
    CompletedIff(k, rows);
    GivesLess(rows, rebuilt, k.id);
    assert GivenBack(k.id, rows) <= k.amount.value by { CompleteBound(k, rows, c); }
  }

  lemma NotTainted(rows: seq<Row>, k: Row)
    requires Clean(rows, k)
    ensures !Tainted(rows, k)
  {
  }

  lemma CompleteBound(k: Row, rows: seq<Row>, c: Row)
    requires CompleteRound(k, rows, c)
    ensures k.amount.Some? && GivenBack(k.id, rows) <= k.amount.value
  {
  }

  lemma RebuiltIds(rows: seq<Row>, rebuilt: seq<Row>, auction: string, token: string)
    requires Relinked(rows, rebuilt, auction, token)
    ensures forall i :: 0 <= i < |rows| ==> rebuilt[i].id == rows[i].id
  {
    hide CanonicalLink;
  }

  /** The one close of a complete round sits on its canonical link, so a rebuild keeps it. */
  lemma TheClose(rows: seq<Row>, rebuilt: seq<Row>, auction: string, token: string, k: Row) returns (c: Row)
    requires Sane(rows) && Attributed(rows) && Relinked(rows, rebuilt, auction, token)
    requires forall r :: r in rows ==> OfPair(r, auction, token)
    requires Kicked(rows, k) && HasClose(rows, k.id) && ClassifyRound(k, rows).Completed()
    ensures CompleteRound(k, rows, c) && c in rebuilt
  {
    hide ClassifyRound, Relinked, OpensFor, GivenBack, Filter, Attributed;
    CompletedIff(k, rows);
    c := Filter(ClosesKick(k.id), rows)[0];
    ClosedIsCanon(rows, k);
    RebuiltClosed(rows, rebuilt, auction, token, k);
    var d :| Recovered(rows, d) && d.ClosesRound() && d.link == Some(k.id) && OpensFor(rows, d, k);
    assert ClosesKick(k.id)(d);
    assert d in Filter(ClosesKick(k.id), rows);
    assert Filter(ClosesKick(k.id), rows) == [c];
  }

  // ------------------------------ what a rebuild will make of a round, read before it

  /** A pair's table: rows of the pair alone, ids ascending, confirmed rows placed, kicks
      unlinked. */
  ghost predicate Regular(rows: seq<Row>, auction: string, token: string) {
    && Ascending(rows)
    && forall r :: r in rows ==>
         && OfPair(r, auction, token) && (r.op.Kick? ==> r.link.None?)
         && (r.status.Confirmed? ==> r.Position().Some?)
  }

  /** Chain order puts the recovery in the kick's round. */
  ghost predicate InRound(rows: seq<Row>, r: Row, k: Row) {
    Recovered(rows, r) && !Path0(r) && OpensFor(rows, r, k)
  }

  /** Chain order closes the kick's round. */
  ghost predicate ChainCloses(rows: seq<Row>, k: Row) {
    exists c :: InRound(rows, c, k) && c.ClosesRound()
  }

  predicate GivesAny(r: Row) {
    r.op.Sweep? || (r.op.Resolve? && r.path == Some(2)) || r.ClosesRound()
  }

  /** What the recoveries of the round give back, by chain order. */
  ghost function ChainGives(rows: seq<Row>, k: Row): int {
    Sum(Amounts(Filter((r: Row) => InRound(rows, r, k) && GivesAny(r), rows)))
  }

  /** Nothing chain order puts in the round, and nothing in flight for it, casts doubt on it. */
  ghost predicate ChainSound(rows: seq<Row>, k: Row) {
    && KickUsable(k) && !InFlight(rows, k.id)
    && forall r :: InRound(rows, r, k) ==>
         && r.minedAt.Some? && At(k).Before(At(r))
         && (r.op.Resolve? ==> r.path.Some? && 0 <= r.path.value <= 5)
         && (GivesAny(r) ==> r.amount.Some?)
         && (r.op.Settled? ==> r.amount == Some(0))
  }

  /** By chain order the round is a no-fill: sound, closed, and everything came back. */
  ghost predicate ChainNoFill(rows: seq<Row>, k: Row) {
    ChainSound(rows, k) && ChainCloses(rows, k) && ChainGives(rows, k) == k.amount.value
  }

  /** The link a rebuild gives a confirmed row is the round chain order puts it in. */
  lemma LinkedIff(rows: seq<Row>, rebuilt: seq<Row>, auction: string, token: string, k: Row, i: nat)
    requires Regular(rows, auction, token) && Relinked(rows, rebuilt, auction, token)
    requires Kicked(rows, k) && i < |rows| && rows[i].status.Confirmed?
    ensures i < |rebuilt| && rebuilt[i] == rows[i].(link := rebuilt[i].link)
    ensures rebuilt[i].link == Some(k.id) <==> InRound(rows, rows[i], k)
  {
    hide OpenBefore;
    RebuiltLength(rows, rebuilt, auction, token);
    var r := rows[i];
    assert r in rows;
    if Relinkable(r, auction, token) {
      RebuiltLink(rows, rebuilt, auction, token, i);
      if InRound(rows, r, k) {
        CanonicalStays(rows, rebuilt, auction, token, i, k);
      }
      if rebuilt[i].link == Some(k.id) {
        var m :| OpensFor(rows, r, m) && m.id == k.id;
        OpenIsKick(rows, r, m);
        SameIdSame(rows, m, k);
      }
    }
  }

  /** Rows not confirmed keep their links. */
  lemma OthersKept(rows: seq<Row>, rebuilt: seq<Row>, auction: string, token: string, i: nat)
    requires Relinked(rows, rebuilt, auction, token) && i < |rows| && !rows[i].status.Confirmed?
    ensures i < |rebuilt| && rebuilt[i] == rows[i]
  {
    hide CanonicalLink;
  }

  /** After a rebuild a kick has a confirmed close exactly if chain order closes its round. */
  lemma RebuiltClosedIff(rows: seq<Row>, rebuilt: seq<Row>, auction: string, token: string, k: Row)
    requires Regular(rows, auction, token) && Relinked(rows, rebuilt, auction, token) && Kicked(rows, k)
    ensures HasClose(rebuilt, k.id) <==> ChainCloses(rows, k)
  {
    hide Relinked, OpensFor;
    RebuiltLength(rows, rebuilt, auction, token);
    if HasClose(rebuilt, k.id) {
      var y :| y in rebuilt && y.link == Some(k.id) && y.status.Confirmed? && y.ClosesRound();
      var i :| 0 <= i < |rebuilt| && rebuilt[i] == y;
      if !rows[i].status.Confirmed? {
        OthersKept(rows, rebuilt, auction, token, i);
      }
      LinkedIff(rows, rebuilt, auction, token, k, i);
      assert InRound(rows, rows[i], k) && rows[i].ClosesRound();
    }
    if ChainCloses(rows, k) {
      var c :| InRound(rows, c, k) && c.ClosesRound();
      var i :| 0 <= i < |rows| && rows[i] == c;
      LinkedIff(rows, rebuilt, auction, token, k, i);
      assert rebuilt[i] in rebuilt;
    }
  }

  lemma {:induction false} SumPointwise(p: Row -> bool, s: seq<Row>, q: Row -> bool, t: seq<Row>)
    requires |s| == |t| && forall i :: 0 <= i < |s| ==> p(s[i]) == q(t[i]) && s[i].amount == t[i].amount
    ensures Sum(Amounts(Filter(p, s))) == Sum(Amounts(Filter(q, t)))
  {
    hide Filter, Map, Sum;
    if |s| > 0 {
      var n := |s| - 1;
      SumPointwise(p, s[..n], q, t[..n]);
      assert s == s[..n] + [s[n]] && t == t[..n] + [t[n]];
      FilterSumAppend(p, s[..n], s[n]);
      FilterSumAppend(q, t[..n], t[n]);
    } else {
      assert s == [] && t == [];
      NothingFiltered(p);
      NothingFiltered(q);
    }
  }

  lemma NothingFiltered(p: Row -> bool)
    ensures Filter(p, []) == []
  {
  }

  lemma FilterSumAppend(p: Row -> bool, s: seq<Row>, r: Row)
    ensures Sum(Amounts(Filter(p, s + [r]))) == Sum(Amounts(Filter(p, s))) + if p(r) then AMOUNT_OF(r) else 0
  {
    FilterAppend(p, s, r);
    MapConcat(AMOUNT_OF, Filter(p, s), [r]);
    assert Amounts([r]) == [AMOUNT_OF(r)];
    SumAppend(Amounts(Filter(p, s)), AMOUNT_OF(r));
  }

  lemma GivesIff(rows: seq<Row>, rebuilt: seq<Row>, auction: string, token: string, k: Row, i: nat)
    requires Regular(rows, auction, token) && Relinked(rows, rebuilt, auction, token) && Kicked(rows, k) && i < |rows|
    ensures i < |rebuilt| && rebuilt[i].amount == rows[i].amount
    ensures GivesBack(k.id, rebuilt[i]) <==> InRound(rows, rows[i], k) && GivesAny(rows[i])
  {
    hide Relinked, OpensFor;
    if rows[i].status.Confirmed? {
      LinkedIff(rows, rebuilt, auction, token, k, i);
    } else {
      OthersKept(rows, rebuilt, auction, token, i);
    }
  }

  lemma ChainTotals(rows: seq<Row>, rebuilt: seq<Row>, auction: string, token: string, k: Row)
    requires Regular(rows, auction, token) && Relinked(rows, rebuilt, auction, token) && Kicked(rows, k)
    ensures GivenBack(k.id, rebuilt) == ChainGives(rows, k)
  {
    hide Relinked, Regular, InRound, GivesAny, GivesBack, Sum, Filter;
    RebuiltLength(rows, rebuilt, auction, token);
    var q := (r: Row) => InRound(rows, r, k) && GivesAny(r);
    forall i | 0 <= i < |rows|
      ensures GivesBackTo(k.id)(rebuilt[i]) == q(rows[i]) && rebuilt[i].amount == rows[i].amount
    {
      GivesIff(rows, rebuilt, auction, token, k, i);
    }
    SumPointwise(GivesBackTo(k.id), rebuilt, q, rows);
  }

  lemma {:induction false} FilterSole(p: Row -> bool, s: seq<Row>, i: nat)
    requires i < |s| && p(s[i]) && forall j :: 0 <= j < |s| && j != i ==> !p(s[j])
    ensures Filter(p, s) == [s[i]]
    decreases |s|
  {
    var n := |s| - 1;
    if i < n {
      FilterSole(p, s[..n], i);
    } else {
      FilterNothing(p, s[..n]);
    }
  }

  lemma {:induction false} FilterNothing(p: Row -> bool, s: seq<Row>)
    requires forall j :: 0 <= j < |s| ==> !p(s[j])
    ensures Filter(p, s) == []
  {
    if |s| > 0 {
      FilterNothing(p, s[..|s| - 1]);
    }
  }

  lemma NotAfterClose(rows: seq<Row>, auction: string, token: string, k: Row, c: Row, r: Row)
    requires Regular(rows, auction, token) && InRound(rows, c, k) && c.ClosesRound() && InRound(rows, r, k)
    ensures !ChainLess(c, r)
  {
  }

  lemma ChainTotal(a: Row, b: Row)
    requires a.Position().Some? && b.Position().Some? && !ChainLess(a, b) && !ChainLess(b, a)
    ensures a.id == b.id
  {
  }

  /** Chain order puts nothing after a round's close into the round, and only one close. */
  lemma NothingAfterClose(rows: seq<Row>, auction: string, token: string, k: Row, c: Row, r: Row)
    requires Regular(rows, auction, token) && InRound(rows, c, k) && c.ClosesRound() && InRound(rows, r, k)
    ensures !ChainLess(c, r)
    ensures r.ClosesRound() ==> r == c
  {
    NotAfterClose(rows, auction, token, k, c, r);
    if r.ClosesRound() {
      NotAfterClose(rows, auction, token, k, r, c);
      ChainTotal(c, r);
      SameIdSame(rows, c, r);
    }
  }

  lemma SoundByChain(rows: seq<Row>, rebuilt: seq<Row>, auction: string, token: string, k: Row, i: nat)
    requires Regular(rows, auction, token) && Relinked(rows, rebuilt, auction, token) && Kicked(rows, k)
    requires ChainSound(rows, k) && i < |rows|
    ensures i < |rebuilt| && Sound(k, rebuilt[i])
  {
    hide Relinked, OpensFor, KickUsable;
    assert rows[i] in rows;
    if rows[i].status.Confirmed? {
      LinkedIff(rows, rebuilt, auction, token, k, i);
    } else {
      OthersKept(rows, rebuilt, auction, token, i);
    }
  }

  /** A round that chain order makes a no-fill is complete in the rebuilt table. */
  lemma ChainComplete(rows: seq<Row>, rebuilt: seq<Row>, auction: string, token: string, k: Row) returns (c: Row)
    requires Regular(rows, auction, token) && Relinked(rows, rebuilt, auction, token) && Kicked(rows, k)
    requires ChainNoFill(rows, k)
    ensures CompleteRound(k, rebuilt, c)
  {
    hide Relinked, OpensFor, Filter, GivenBack, ChainGives, Sound;
    RebuiltLength(rows, rebuilt, auction, token);
    ChainTotals(rows, rebuilt, auction, token, k);
    var close :| InRound(rows, close, k) && close.ClosesRound();
    var j :| 0 <= j < |rows| && rows[j] == close;
    c := rebuilt[j];
    LinkedIff(rows, rebuilt, auction, token, k, j);
    forall i | 0 <= i < |rebuilt| && i != j ensures !ClosesKick(k.id)(rebuilt[i]) {
      OnlyClose(rows, rebuilt, auction, token, k, j, i);
    }
    FilterSole(ClosesKick(k.id), rebuilt, j);
    forall r | r in rebuilt ensures Sound(k, r) {
      var i :| 0 <= i < |rebuilt| && rebuilt[i] == r;
      SoundByChain(rows, rebuilt, auction, token, k, i);
    }
    forall r | r in rebuilt && r.link == Some(k.id) && r.status.Confirmed? && r.op.Sweep? && r.Position().Some?
      ensures !c.Position().value.Before(r.Position().value)
    {
      var i :| 0 <= i < |rebuilt| && rebuilt[i] == r;
      SweepNotLater(rows, rebuilt, auction, token, k, j, i);
    }
  }

  lemma OnlyClose(rows: seq<Row>, rebuilt: seq<Row>, auction: string, token: string, k: Row, j: nat, i: nat)
    requires Regular(rows, auction, token) && Relinked(rows, rebuilt, auction, token) && Kicked(rows, k)
    requires j < |rows| && InRound(rows, rows[j], k) && rows[j].ClosesRound() && i < |rows| && i != j
    ensures i < |rebuilt| && !ClosesKick(k.id)(rebuilt[i])
  {
    hide Relinked, OpensFor;
    RebuiltLength(rows, rebuilt, auction, token);
    assert rows[i].id != rows[j].id;
    if rows[i].status.Confirmed? {
      LinkedIff(rows, rebuilt, auction, token, k, i);
      if InRound(rows, rows[i], k) {
        NothingAfterClose(rows, auction, token, k, rows[j], rows[i]);
      }
    } else {
      OthersKept(rows, rebuilt, auction, token, i);
    }
  }

  lemma SweepNotLater(rows: seq<Row>, rebuilt: seq<Row>, auction: string, token: string, k: Row, j: nat, i: nat)
    requires Regular(rows, auction, token) && Relinked(rows, rebuilt, auction, token) && Kicked(rows, k)
    requires j < |rows| && InRound(rows, rows[j], k) && rows[j].ClosesRound()
    requires i < |rebuilt| && rebuilt[i].link == Some(k.id) && rebuilt[i].status.Confirmed?
    requires rebuilt[i].Position().Some?
    ensures j < |rebuilt| && !At(rebuilt[j]).Before(At(rebuilt[i]))
  {
    hide Relinked, OpensFor;
    RebuiltLength(rows, rebuilt, auction, token);
    if !rows[i].status.Confirmed? {
      OthersKept(rows, rebuilt, auction, token, i);
    }
    LinkedIff(rows, rebuilt, auction, token, k, i);
    LinkedIff(rows, rebuilt, auction, token, k, j);
    NothingAfterClose(rows, auction, token, k, rows[j], rows[i]);
  }

  /** And a complete no-fill of the rebuilt table is one by chain order. */
  lemma CompleteChain(rows: seq<Row>, rebuilt: seq<Row>, auction: string, token: string, k: Row, c: Row)
    requires Regular(rows, auction, token) && Relinked(rows, rebuilt, auction, token) && Kicked(rows, k)
    requires CompleteRound(k, rebuilt, c)
    ensures ChainSound(rows, k) && ChainCloses(rows, k)
  {
    hide Relinked, OpensFor, Filter, GivenBack, Sound, KickUsable;
    RebuiltLength(rows, rebuilt, auction, token);
    assert c in Filter(ClosesKick(k.id), rebuilt);
    assert HasClose(rebuilt, k.id);
    RebuiltClosedIff(rows, rebuilt, auction, token, k);
    forall r | r in rows && r.link == Some(k.id) ensures !r.status.Submitted? {
      var i :| 0 <= i < |rows| && rows[i] == r;
      if r.status.Submitted? {
        OthersKept(rows, rebuilt, auction, token, i);
        SoundFacts(k, rebuilt[i]);
      }
    }
    forall r | InRound(rows, r, k)
      ensures r.minedAt.Some? && At(k).Before(At(r)) && (r.op.Resolve? ==> r.path.Some? && 0 <= r.path.value <= 5)
      ensures (GivesAny(r) ==> r.amount.Some?) && (r.op.Settled? ==> r.amount == Some(0))
    {
      var i :| 0 <= i < |rows| && rows[i] == r;
      LinkedIff(rows, rebuilt, auction, token, k, i);
      assert rebuilt[i] in rebuilt;
      SoundFacts(k, rebuilt[i]);
      if r.ClosesRound() {
        assert ClosesKick(k.id)(rebuilt[i]);
        assert rebuilt[i] in Filter(ClosesKick(k.id), rebuilt);
        assert rebuilt[i] == c;
      }
    }
  }

  lemma SoundFacts(k: Row, r: Row)
    requires Sound(k, r) && r.link == Some(k.id)
    ensures !r.status.Submitted?
    ensures r.status.Confirmed? ==>
              && r.minedAt.Some? && At(k).Before(At(r)) && (r.op.Resolve? ==> r.path.Some? && 0 <= r.path.value <= 5)
              && (r.op.Sweep? || (r.op.Resolve? && r.path == Some(2)) ==> r.amount.Some?)
  {
  }

  /** Read before a rebuild: it makes the round a no-fill exactly if by chain order it is
      one. */
  lemma RebuiltNoFillIff(rows: seq<Row>, rebuilt: seq<Row>, auction: string, token: string, k: Row)
    requires Regular(rows, auction, token) && Relinked(rows, rebuilt, auction, token) && Kicked(rows, k)
    ensures ClassifyRound(k, rebuilt).outcome.NoFill? <==> ChainNoFill(rows, k)
  {
    hide Relinked, ClassifyRound, CompleteRound, ChainGives, GivenBack, Filter, Regular, ChainSound, ChainCloses;
    ChainTotals(rows, rebuilt, auction, token, k);
    CompletedIff(k, rebuilt);
    if ChainNoFill(rows, k) {
      var c := ChainComplete(rows, rebuilt, auction, token, k);
    }
    if ClassifyRound(k, rebuilt).outcome.NoFill? {
      var c :| CompleteRound(k, rebuilt, c);
      CompleteBound(k, rebuilt, c);
      CompleteChain(rows, rebuilt, auction, token, k, c);
    }
  }

  // ---------------------------------------------------- clearing a suspension

  lemma MarkedOpens(rows: seq<Row>, after: seq<Row>, i: nat, j: nat)
    requires Alike(after, rows) && i < |rows| && j < |rows| && OpensFor(rows, rows[i], rows[j])
    ensures OpensFor(after, after[i], after[j])
  {
    AlikeAt(rows, after, i);
    AlikeAt(rows, after, j);
    AlikeLength(rows, after);
    var r, k := after[i], after[j];
    hide Alike;
    forall x | x in after && OnChain(x, r.auction, r.token) && IsMark(x) && ChainLess(x, r) ensures !ChainLess(k, x) {
      var n :| 0 <= n < |after| && after[n] == x;
      AlikeAt(rows, after, n);
      assert rows[n] in rows && rows[n] == x.(baseline := rows[n].baseline);
    }
  }

  /** Rows of before and after the mark, by place. */
  lemma MarkedOpen(rows: seq<Row>, after: seq<Row>, i: nat, j: nat)
    requires Alike(after, rows) && i < |rows| && j < |rows|
    ensures i < |after| && j < |after| && (OpensFor(rows, rows[i], rows[j]) <==> OpensFor(after, after[i], after[j]))
  {
    hide OpensFor;
    assert Alike(rows, after);
    if OpensFor(rows, rows[i], rows[j]) {
      MarkedOpens(rows, after, i, j);
    }
    if OpensFor(after, after[i], after[j]) {
      MarkedOpens(after, rows, i, j);
    }
  }

  lemma MarkedNone(rows: seq<Row>, after: seq<Row>, i: nat)
    requires Alike(after, rows) && i < |rows|
    ensures NoneOpen(rows, rows[i]) <==> NoneOpen(after, after[i])
  {
    hide OpenBefore, Alike1;
    forall k | OpensFor(rows, rows[i], k) ensures !NoneOpen(after, after[i]) {
      OpenIsKick(rows, rows[i], k);
      var j :| 0 <= j < |rows| && rows[j] == k;
      MarkedOpen(rows, after, i, j);
    }
    forall k | OpensFor(after, after[i], k) ensures !NoneOpen(rows, rows[i]) {
      OpenIsKick(after, after[i], k);
      var j :| 0 <= j < |after| && after[j] == k;
      MarkedOpen(rows, after, i, j);
    }
  }

  lemma MarkedKicked(rows: seq<Row>, after: seq<Row>, j: nat)
    requires Alike(after, rows) && j < |rows|
    ensures Kicked(rows, rows[j]) <==> Kicked(after, after[j])
    ensures Recovered(rows, rows[j]) <==> Recovered(after, after[j])
    ensures after[j] == rows[j].(baseline := after[j].baseline) && At(after[j]) == At(rows[j])
    ensures IsMark(after[j]) == IsMark(rows[j])
  {
    assert Alike1(after[j], rows[j]);
  }

  lemma MarkedClosed(rows: seq<Row>, after: seq<Row>, j: nat)
    requires Alike(after, rows) && j < |rows| && CanonClosed(rows, rows[j])
    ensures CanonClosed(after, after[j])
  {
    hide OpensFor, Alike;
    var c :| Recovered(rows, c) && c.ClosesRound() && c.link == Some(rows[j].id) && OpensFor(rows, c, rows[j]);
    var i :| 0 <= i < |rows| && rows[i] == c;
    AlikeLength(rows, after);
    MarkedKicked(rows, after, i);
    MarkedKicked(rows, after, j);
    MarkedOpen(rows, after, i, j);
    ShowClosed(after, after[j], after[i]);
  }

  lemma AlikeLength(rows: seq<Row>, after: seq<Row>)
    requires Alike(after, rows)
    ensures |after| == |rows|
  {
  }

  lemma MarkedAttributed(rows: seq<Row>, after: seq<Row>, i: nat)
    requires Alike(after, rows) && i < |rows| && Attributed1(rows, rows[i])
    ensures i < |after| && Attributed1(after, after[i])
  {
    hide OpensFor, NoneOpen, CanonClosed, Alike;
    AlikeLength(rows, after);
    MarkedKicked(rows, after, i);
    MarkedNone(rows, after, i);
    if rows[i].link.Some? {
      var k :| WellLinked(rows, rows[i], k);
      var j :| 0 <= j < |rows| && rows[j] == k;
      MarkedKicked(rows, after, j);
      MarkedOpen(rows, after, i, j);
      if CanonClosed(rows, k) {
        MarkedClosed(rows, after, j);
      }
      assert WellLinked(after, after[i], after[j]);
    }
  }

  lemma MarkedApart(rows: seq<Row>, after: seq<Row>)
    requires Alike(after, rows) && Ascending(rows) && KicksApart(rows)
    ensures KicksApart(after)
  {
    hide Alike, Older;
    AlikeLength(rows, after);
    forall k, x | Kicked(after, k) && x in after && Placed(x) && x != k
      ensures At(k).Before(At(x)) || At(x).Before(At(k))
    {
      var i :| 0 <= i < |after| && after[i] == k;
      var j :| 0 <= j < |after| && after[j] == x;
      MarkedKicked(rows, after, i);
      MarkedKicked(rows, after, j);
      assert rows[i] in rows && rows[j] in rows && rows[i].id != rows[j].id;
    }
    forall a, b | Kicked(after, a) && Kicked(after, b) && Older(a, b) ensures At(a).Before(At(b)) {
      var i :| 0 <= i < |after| && after[i] == a;
      var j :| 0 <= j < |after| && after[j] == b;
      MarkedKicked(rows, after, i);
      MarkedKicked(rows, after, j);
      OlderAlike(a, b, rows[i], rows[j]);
    }
  }

  lemma MarkedMarks(rows: seq<Row>, after: seq<Row>)
    requires Alike(after, rows) && MarksClose(rows)
    ensures MarksClose(after)
  {
    hide Alike, CanonClosed, IsMark;
    AlikeLength(rows, after);
    forall k, x | Kicked(after, k) && x in after && Placed(x) && IsMark(x) && ChainLess(k, x)
      ensures CanonClosed(after, k)
    {
      var i :| 0 <= i < |after| && after[i] == k;
      var j :| 0 <= j < |after| && after[j] == x;
      MarkedKicked(rows, after, i);
      MarkedKicked(rows, after, j);
      assert rows[j] in rows && Placed(rows[j]) && IsMark(rows[j]) && ChainLess(rows[i], rows[j]);
      MarkedClosed(rows, after, i);
    }
  }

  lemma MarkedAimed(rows: seq<Row>, after: seq<Row>)
    requires Alike(after, rows) && Aimed(rows)
    ensures Aimed(after)
  {
    hide Alike;
    AlikeLength(rows, after);
    forall r | r in after && r.status.Submitted? && r.link.Some?
      ensures exists k :: Kicked(after, k) && k.id == r.link.value
    {
      var i :| 0 <= i < |after| && after[i] == r;
      MarkedKicked(rows, after, i);
      assert rows[i] in rows;
      var k :| Kicked(rows, k) && k.id == rows[i].link.value;
      var j :| 0 <= j < |rows| && rows[j] == k;
      MarkedKicked(rows, after, j);
    }
  }

  lemma MarkedChained(rows: seq<Row>, after: seq<Row>)
    requires Alike(after, rows) && Ascending(rows) && Chained(rows)
    ensures Chained(after)
  {
    hide Alike, Attributed1, KicksApart, MarksClose, Aimed;
    AlikeLength(rows, after);
    forall r | Recovered(after, r) ensures Attributed1(after, r) {
      var i :| 0 <= i < |after| && after[i] == r;
      MarkedKicked(rows, after, i);
      MarkedAttributed(rows, after, i);
    }
    MarkedApart(rows, after);
    MarkedMarks(rows, after);
    MarkedAimed(rows, after);
  }

  lemma MarkedTaint(rows: seq<Row>, after: seq<Row>, j: nat)
    requires Alike(after, rows) && j < |rows| && Tainted(rows, rows[j])
    ensures Tainted(after, after[j])
  {
    hide OpensFor, Alike, Blank;
    AlikeLength(rows, after);
    var b :| Recovered(rows, b) && Blank(b) && b.link == Some(rows[j].id) && OpensFor(rows, b, rows[j]);
    var i :| 0 <= i < |rows| && rows[i] == b;
    MarkedKicked(rows, after, i);
    MarkedKicked(rows, after, j);
    MarkedOpen(rows, after, i, j);
    assert Blank(after[i]) by { BlankMarked(rows[i], after[i]); }
  }

  lemma BlankMarked(r: Row, m: Row)
    requires Blank(r) && m == r.(baseline := m.baseline)
    ensures Blank(m)
  {
  }

  lemma MarkedJudged(rows: seq<Row>, after: seq<Row>, kicks: seq<Row>, marked: seq<Row>)
    requires Alike(after, rows) && Alike(marked, kicks) && Judged(rows, kicks)
    requires forall i :: 0 <= i < |kicks| ==> kicks[i].baseline ==> marked[i].baseline
    requires forall k :: k in kicks ==> k in rows
    requires Ascending(rows) && forall k :: k in marked ==> k in after
    ensures Judged(after, marked)
  {
    hide ClassifyRound, Tainted, Alike;
    AlikeLength(kicks, marked);
    forall k | SettledKick(marked, k) && !k.baseline ensures ClassifyRound(k, after).Completed() || Tainted(after, k) {
      var i :| 0 < i < |marked| && marked[i] == k;
      AlikeAt(kicks, marked, i);
      assert kicks[i] in kicks && SettledKick(kicks, kicks[i]);
      RoundAlike(k, kicks[i], after, rows);
      if Tainted(rows, kicks[i]) {
        var j := PlaceOf(rows, after, kicks[i], k);
        MarkedTaint(rows, after, j);
      }
    }
  }

  lemma AlikeAt(kicks: seq<Row>, marked: seq<Row>, i: nat)
    requires Alike(marked, kicks) && i < |kicks|
    ensures i < |marked| && Alike1(marked[i], kicks[i])
  {
  }

  lemma PlaceOf(rows: seq<Row>, after: seq<Row>, k: Row, k': Row) returns (j: nat)
    requires Alike(after, rows) && Ascending(rows) && k in rows && k' in after && Alike1(k', k)
    ensures j < |rows| && j < |after| && rows[j] == k && after[j] == k'
  {
    j :| 0 <= j < |rows| && rows[j] == k;
    var n :| 0 <= n < |after| && after[n] == k';
    AlikeAt(rows, after, n);
    AlikeAt(rows, after, j);
    assert rows[n].id == rows[j].id;
  }

  // ------------------------------------------------------- restrained rebuilds

  /** A change leaves every settled round frozen and turns none into a no-fill. */
  ghost predicate Restrained(rows: seq<Row>, after: seq<Row>) {
    forall k :: SettledKick(KicksNewestFirst(rows), k) ==>
      && Frozen(after, k)
      && (!k.baseline && ClassifyRound(k, after).outcome.NoFill? ==> ClassifyRound(k, rows).outcome.NoFill?)
  }

  /** Read before a rebuild: chain order closes every settled round, and makes none a
      no-fill that is not one already. */
  ghost predicate Agreeable(rows: seq<Row>) {
    forall k :: SettledKick(KicksNewestFirst(rows), k) ==>
      && ChainCloses(rows, k)
      && (!k.baseline && ChainNoFill(rows, k) ==> ClassifyRound(k, rows).outcome.NoFill?)
  }

  lemma RebuiltFrozenIff(rows: seq<Row>, rebuilt: seq<Row>, auction: string, token: string, k: Row)
    requires Regular(rows, auction, token) && Relinked(rows, rebuilt, auction, token)
    requires k in rows && k.op.Kick? && Frozen(rows, k)
    ensures Frozen(rebuilt, k) <==> ChainCloses(rows, k)
  {
    hide Relinked, ChainCloses, HasClose;
    RebuiltClosedIff(rows, rebuilt, auction, token, k);
    RebuiltSame(rows, rebuilt, auction, token);
  }

  /** A rebuild is restrained exactly if the table it starts from is agreeable. */
  lemma RestrainedIff(rows: seq<Row>, rebuilt: seq<Row>, auction: string, token: string)
    requires Regular(rows, auction, token) && Relinked(rows, rebuilt, auction, token)
    requires SettledBelow(rows, KicksNewestFirst(rows))
    ensures Restrained(rows, rebuilt) <==> Agreeable(rows)
  {
    var kicks := KicksNewestFirst(rows);
    KickMembers(rows);
    hide KicksNewestFirst, Relinked, Frozen, ClassifyRound, ChainCloses, ChainNoFill, SettledBelow, Regular;
    forall k | SettledKick(kicks, k)
      ensures Frozen(rebuilt, k) <==> ChainCloses(rows, k)
      ensures ClassifyRound(k, rebuilt).outcome.NoFill? <==> ChainNoFill(rows, k)
    {
      SettledFacts(rows, auction, token, kicks, k);
      RebuiltFrozenIff(rows, rebuilt, auction, token, k);
      RebuiltNoFillIff(rows, rebuilt, auction, token, k);
    }
  }

  lemma SettledFacts(rows: seq<Row>, auction: string, token: string, kicks: seq<Row>, k: Row)
    requires Regular(rows, auction, token) && SettledBelow(rows, kicks) && SettledKick(kicks, k)
    requires forall x :: x in kicks ==> x in rows && ActiveKick(x)
    ensures k in rows && k.op.Kick? && Frozen(rows, k) && Kicked(rows, k)
  {
    hide HasClose, InFlight;
  }
}
