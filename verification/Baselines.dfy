/** Round evidence does not depend on baseline marks. */
module Baselines {
  import opened Common
  import opened Rounds
  import opened PairHistory

  // ------------------------------------------ evidence ignores the baseline

  /** Equal in every column but the baseline mark. */
  ghost predicate Alike1(a: Row, b: Row) {
    a == b.(baseline := a.baseline)
  }

  ghost predicate Alike(s: seq<Row>, t: seq<Row>) {
    |s| == |t| && forall i :: 0 <= i < |s| ==> Alike1(s[i], t[i])
  }

  ghost predicate BlindToBaseline(p: Row -> bool) {
    forall a, b :: Alike1(a, b) ==> p(a) == p(b)
  }

  lemma {:induction false} FilterAlike(p: Row -> bool, s: seq<Row>, t: seq<Row>)
    requires Alike(s, t) && BlindToBaseline(p)
    ensures Alike(Filter(p, s), Filter(p, t))
  {
    if |s| > 0 {
      FilterAlike(p, s[..|s| - 1], t[..|t| - 1]);
      assert Alike1(s[|s| - 1], t[|t| - 1]);
    }
  }

  lemma RowDefectAlike(k: Row, k': Row, a: Row, b: Row)
    requires Alike1(k, k') && Alike1(a, b)
    ensures RowDefect(k, a) == RowDefect(k', b) && PathDefect(a) == PathDefect(b)
  {
  }

  lemma {:induction false} DefectsAlike(k: Row, k': Row, s: seq<Row>, t: seq<Row>)
    requires Alike1(k, k') && Alike(s, t)
    ensures FirstRowDefect(k, s) == FirstRowDefect(k', t)
    ensures FirstPathDefect(s) == FirstPathDefect(t)
  {
    hide RowDefect, PathDefect;
    if |s| > 0 {
      DefectsAlike(k, k', s[..|s| - 1], t[..|t| - 1]);
      RowDefectAlike(k, k', s[|s| - 1], t[|t| - 1]);
    }
  }

  lemma {:induction false} ReadingsAlike(s: seq<Row>, t: seq<Row>)
    requires Alike(s, t)
    ensures Amounts(s) == Amounts(t) && Ids(s) == Ids(t)
  {
    assert forall i :: 0 <= i < |s| ==> Alike1(s[i], t[i]);
  }

  lemma ClosedAlike(k: Row, k': Row, s: seq<Row>, s': seq<Row>, r: seq<Row>, r': seq<Row>, c: Row, c': Row)
    requires Alike1(k, k') && Alike(s, s') && Alike(r, r') && Alike1(c, c')
    requires KickUsable(k) && KickUsable(k') && c.Position().Some? && c'.Position().Some?
    requires forall x :: x in s ==> x.Position().Some?
    requires forall x :: x in s' ==> x.Position().Some?
    ensures ClassifyClosed(k, s, r, c) == ClassifyClosed(k', s', r', c')
  {
    hide Map, Sum;
    ReadingsAlike(r, r');
    ReadingsAlike(r + [c], r' + [c']);
    assert forall i :: 0 <= i < |s| ==> Alike1(s[i], s'[i]);
    assert (exists x :: x in s && c.Position().value.Before(x.Position().value))
           <==> (exists i :: 0 <= i < |s| && c.Position().value.Before(s[i].Position().value));
    assert (exists x :: x in s' && c'.Position().value.Before(x.Position().value))
           <==> (exists i :: 0 <= i < |s'| && c'.Position().value.Before(s'[i].Position().value));
  }

  lemma ConfirmedAlike(k: Row, k': Row, s: seq<Row>, t: seq<Row>)
    requires Alike1(k, k') && Alike(s, t) && KickUsable(k) && KickUsable(k')
    requires forall r :: r in s ==> r.Position().Some? && r.minedAt.Some?
    requires forall r :: r in t ==> r.Position().Some? && r.minedAt.Some?
    ensures ClassifyConfirmed(k, s) == ClassifyConfirmed(k', t)
  {
    hide Filter, Map, Sum, FirstPathDefect, FirstRowDefect, ClassifyClosed, Recoveries, Closes;
    PartsAlike(s, t);
    DefectsAlike(k, k', Filter(IS_RESOLVE, s), Filter(IS_RESOLVE, t));
    var r, r', c, c' := Recoveries(s), Recoveries(t), Closes(s), Closes(t);
    ReadingsAlike(r, r');
    ReadingsAlike(r + c, r' + c');
    AnyMissingAlike(r, r');
    if |c| == 1 {
      CloseMembers(s);
      CloseMembers(t);
      ClosedAlike(k, k', Filter(IS_SWEEP, s), Filter(IS_SWEEP, t), r, r', c[0], c'[0]);
    }
  }

  lemma PartsAlike(s: seq<Row>, t: seq<Row>)
    requires Alike(s, t)
    ensures Alike(Filter(IS_RESOLVE, s), Filter(IS_RESOLVE, t)) && Alike(Filter(IS_SWEEP, s), Filter(IS_SWEEP, t))
    ensures Alike(Recoveries(s), Recoveries(t)) && Alike(Closes(s), Closes(t))
  {
    hide Filter, BlindToBaseline, Alike;
    TestsAreBlind(0);
    FilterAlike(IS_RESOLVE, s, t);
    FilterAlike(IS_SWEEP, s, t);
    FilterAlike(IS_SETTLED, s, t);
    FilterAlike(IS_RETURN, Filter(IS_RESOLVE, s), Filter(IS_RESOLVE, t));
    FilterAlike(CLOSES_BY_PATH, Filter(IS_RESOLVE, s), Filter(IS_RESOLVE, t));
    ConcatAlike(Filter(IS_SWEEP, s), Filter(IS_RETURN, Filter(IS_RESOLVE, s)),
                Filter(IS_SWEEP, t), Filter(IS_RETURN, Filter(IS_RESOLVE, t)));
    ConcatAlike(Filter(CLOSES_BY_PATH, Filter(IS_RESOLVE, s)), Filter(IS_SETTLED, s),
                Filter(CLOSES_BY_PATH, Filter(IS_RESOLVE, t)), Filter(IS_SETTLED, t));
  }

  lemma TestsAreBlind(kickId: int)
    ensures BlindToBaseline(IS_RESOLVE) && BlindToBaseline(IS_SWEEP) && BlindToBaseline(IS_SETTLED)
    ensures BlindToBaseline(IS_RETURN) && BlindToBaseline(CLOSES_BY_PATH) && BlindToBaseline(IS_CONFIRMED)
    ensures BlindToBaseline(LinkedTo(kickId))
  {
  }

  lemma ConcatAlike(a: seq<Row>, b: seq<Row>, c: seq<Row>, d: seq<Row>)
    requires Alike(a, c) && Alike(b, d)
    ensures Alike(a + b, c + d)
  {
    hide Alike1;
  }

  lemma CloseMembers(s: seq<Row>)
    ensures forall r :: r in Closes(s) ==> r in s
  {
    hide Filter;
  }

  lemma AnyMissingAlike(s: seq<Row>, t: seq<Row>)
    requires Alike(s, t)
    ensures (exists r :: r in s && r.amount.None?) <==> (exists r :: r in t && r.amount.None?)
    ensures (exists r :: r in s && r.status.Submitted?) <==> (exists r :: r in t && r.status.Submitted?)
  {
    assert forall i :: 0 <= i < |s| ==> Alike1(s[i], t[i]) && s[i] in s && t[i] in t;
  }

  lemma KickAlike(k: Row, k': Row)
    requires Alike1(k, k')
    ensures KickUsable(k) == KickUsable(k') && (!KickUsable(k) ==> KickDefect(k) == KickDefect(k'))
    ensures forall o, d :: Verdict(o, d, k) == Verdict(o, d, k')
  {
  }

  lemma LinkedAlike(k: Row, k': Row, l: seq<Row>, m: seq<Row>)
    requires Alike1(k, k') && Alike(l, m)
    ensures ClassifyLinked(k, l) == ClassifyLinked(k', m)
  {
    hide Filter, FirstRowDefect, ClassifyConfirmed, BlindToBaseline, Alike, Alike1, KickUsable, KickDefect, Verdict;
    KickAlike(k, k');
    TestsAreBlind(k.id);
    AnyMissingAlike(l, m);
    DefectsAlike(k, k', l, m);
    FilterAlike(IS_CONFIRMED, l, m);
    if KickUsable(k) && FirstRowDefect(k, l).None? {
      ConfirmedPositioned(k, l);
      ConfirmedPositioned(k', m);
      ConfirmedAlike(k, k', Filter(IS_CONFIRMED, l), Filter(IS_CONFIRMED, m));
    }
  }

  lemma RoundAlike(k: Row, k': Row, s: seq<Row>, t: seq<Row>)
    requires Alike1(k, k') && Alike(s, t)
    ensures ClassifyRound(k, s) == ClassifyRound(k', t)
  {
    hide Filter, ClassifyLinked, BlindToBaseline, Alike;
    TestsAreBlind(k.id);
    FilterAlike(LinkedTo(k.id), s, t);
    LinkedAlike(k, k', Filter(LinkedTo(k.id), s), Filter(LinkedTo(k.id), t));
  }

  lemma ConfirmedPositioned(k: Row, linked: seq<Row>)
    requires FirstRowDefect(k, linked).None?
    ensures forall r :: r in Filter(IS_CONFIRMED, linked) ==> r.Position().Some? && r.minedAt.Some?
  {
    hide Filter, FirstRowDefect;
    forall r | r in Filter(IS_CONFIRMED, linked) ensures r.Position().Some? && r.minedAt.Some? {
      assert RowDefect(k, r).None?;
    }
  }

  lemma OlderAlike(a: Row, b: Row, a': Row, b': Row)
    requires Alike1(a, a') && Alike1(b, b')
    ensures Older(a, b) == Older(a', b')
  {
  }

  lemma {:induction false} InsertAlike(s: seq<Row>, t: seq<Row>, k: Row, k': Row)
    requires Alike(s, t) && Alike1(k, k')
    ensures Alike(InsertNewestFirst(s, k), InsertNewestFirst(t, k'))
  {
    hide Older, Alike1;
    if |s| > 0 {
      OlderAlike(k, s[0], k', t[0]);
      InsertAlike(s[1..], t[1..], k, k');
      ConcatAlike([s[0]], InsertNewestFirst(s[1..], k), [t[0]], InsertNewestFirst(t[1..], k'));
    }
    ConcatAlike([k], s, [k'], t);
  }

  lemma {:induction false} KicksAlike(s: seq<Row>, t: seq<Row>)
    requires Alike(s, t)
    ensures Alike(KicksNewestFirst(s), KicksNewestFirst(t))
  {
    if |s| > 0 {
      KicksAlike(s[..|s| - 1], t[..|t| - 1]);
      assert Alike1(s[|s| - 1], t[|t| - 1]);
      InsertAlike(KicksNewestFirst(s[..|s| - 1]), KicksNewestFirst(t[..|t| - 1]), s[|s| - 1], t[|t| - 1]);
    }
  }

  lemma StrayAlike(s: seq<Row>, t: seq<Row>, k: Row, k': Row, newer: Option<Row>, newer': Option<Row>)
    requires Alike(s, t) && Alike1(k, k') && newer.Some? == newer'.Some?
    requires newer.Some? ==> Alike1(newer.value, newer'.value)
    ensures HasStrayClose(s, k, newer) == HasStrayClose(t, k', newer')
  {
    assert forall i :: 0 <= i < |s| ==> Alike1(s[i], t[i]) && s[i] in s && t[i] in t;
  }

  /** Marking baselines never changes how any round is classified. */
  lemma AllRoundsAlike(s: seq<Row>, t: seq<Row>)
    requires Alike(s, t)
    ensures AllRounds(s) == AllRounds(t)
  {
    KicksAlike(s, t);
    var k, k' := KicksNewestFirst(s), KicksNewestFirst(t);
    hide KicksNewestFirst, ClassifyRound, HasStrayClose;
    forall i | 0 <= i < |k| ensures AllRounds(s)[i] == AllRounds(t)[i] {
      assert Alike1(k[i], k'[i]) && (i > 0 ==> Alike1(k[i - 1], k'[i - 1]));
      RoundAlike(k[i], k'[i], s, t);
      StrayAlike(s, t, k[i], k'[i], NewerThan(k, i), NewerThan(k', i));
    }
  }
}
