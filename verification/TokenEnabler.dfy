/** Gas-bounded greedy batching of enable calls (tidal/scanner/auction_token_enabler.py). */
module TokenEnabler {
  import opened Common

  /** A gas estimator asked once per call: its answer may depend on when it is asked. */
  type Estimator<!T> = (nat, seq<T>) -> Option<nat>

  datatype Emission<T> =
    | Sent(batch: seq<T>, estimate: nat)
    | Rejected(candidate: T)
  {
    function Items(): seq<T> {
      if Sent? then batch else [candidate]
    }
  }

  function Flatten<T>(out: seq<Emission<T>>): seq<T> {
    if |out| == 0 then [] else Flatten(out[..|out| - 1]) + out[|out| - 1].Items()
  }

  ghost predicate Answered<T(!new)>(estimator: Estimator<T>, batch: seq<T>, answer: Option<nat>) {
    exists call: nat :: estimator(call, batch) == answer
  }

  ghost predicate Deterministic<T(!new)>(estimator: Estimator<T>) {
    forall call: nat, batch: seq<T> :: estimator(call, batch) == estimator(0, batch)
  }

  ghost predicate Feasible<T>(estimator: Estimator<T>, maxGas: nat, batch: seq<T>) {
    estimator(0, batch).Some? && estimator(0, batch).value <= maxGas
  }

  /** Every way of growing the batch one candidate at a time stays feasible. */
  ghost predicate Growable<T>(estimator: Estimator<T>, maxGas: nat, batch: seq<T>) {
    forall n :: 0 < n <= |batch| ==> Feasible(estimator, maxGas, batch[..n])
  }

  ghost predicate Closes<T>(estimator: Estimator<T>, maxGas: nat, e: Emission<T>, next: Emission<T>) {
    e.Sent? && |next.Items()| > 0 ==> !Feasible(estimator, maxGas, e.batch + [next.Items()[0]])
  }

  ghost predicate Sound<T(!new)>(estimator: Estimator<T>, maxGas: nat, e: Emission<T>) {
    match e
    case Sent(batch, estimate) =>
      |batch| > 0 && estimate <= maxGas && Answered(estimator, batch, Some(estimate))
    case Rejected(c) =>
      exists answer: Option<nat> :: Answered(estimator, [c], answer) && (answer.None? || answer.value > maxGas)
  }

  ghost predicate Greedy<T>(estimator: Estimator<T>, maxGas: nat, e: Emission<T>) {
    if e.Sent? then |e.batch| > 0 && Growable(estimator, maxGas, e.batch) && estimator(0, e.batch) == Some(e.estimate)
    else !Feasible(estimator, maxGas, [e.candidate])
  }

  /** The greedy plan, said without the loop: the emissions partition the candidates in
      order, a batch ends only where one more candidate would not fit, and only candidates
      that do not fit on their own are rejected. */
  ghost predicate GreedyPlan<T>(estimator: Estimator<T>, maxGas: nat, candidates: seq<T>, out: seq<Emission<T>>) {
    && Flatten(out) == candidates
    && (forall i :: 0 <= i < |out| ==> Greedy(estimator, maxGas, out[i]))
    && (forall i :: 0 < i < |out| ==> Closes(estimator, maxGas, out[i - 1], out[i]))
  }

  method EnableAuctionBatches<T(!new)>(candidates: seq<T>, maxGas: nat, estimator: Estimator<T>)
      returns (out: seq<Emission<T>>)
    ensures Flatten(out) == candidates
    ensures AllSound(estimator, maxGas, out)
    ensures Deterministic(estimator) ==> GreedyPlan(estimator, maxGas, candidates, out)
  {
    hide Answered, Feasible, PlanSoFar, AllSound, Flatten, GreedyPlan;
    out := [];
    var current: seq<T>, currentEstimate: Option<nat> := [], None;
    var calls: nat := 0;
    NothingEmitted(estimator, maxGas);
    for n := 0 to |candidates|
      invariant Flatten(out) + current == candidates[..n]
      invariant current == [] <==> currentEstimate.None?
      invariant current != [] ==> Within(estimator, maxGas, current, currentEstimate)
      invariant AllSound(estimator, maxGas, out)
      invariant Deterministic(estimator) ==> PlanSoFar(estimator, maxGas, out, current, currentEstimate)
    {
      var candidate := candidates[n];
      assert candidates[..n + 1] == candidates[..n] + [candidate];
      ghost var out0, current0, estimate0 := out, current, currentEstimate;
      assert [] + [candidate] == [candidate];

      var tentative := current + [candidate];
      var estimate := estimator(calls, tentative);
      Asked(estimator, maxGas, calls, tentative, estimate);
      calls := calls + 1;
      if estimate.None? {
        if current != [] && currentEstimate.Some? {
          EmitSent(estimator, maxGas, out, current, currentEstimate.value);
          out := out + [Sent(current, currentEstimate.value)];
          current, currentEstimate := [], None;
          estimate := estimator(calls, [candidate]);
          Asked(estimator, maxGas, calls, [candidate], estimate);
          calls := calls + 1;
        }
        if estimate.None? {
          EmitRejected(estimator, maxGas, out, candidate, estimate);
          out := out + [Rejected(candidate)];
          if Deterministic(estimator) {
            AfterReject(estimator, maxGas, out0, current0, estimate0, candidate);
          }
          continue;
        }
      }
      if estimate.Some? && estimate.value > maxGas {
        if current != [] && currentEstimate.Some? {
          EmitSent(estimator, maxGas, out, current, currentEstimate.value);
          out := out + [Sent(current, currentEstimate.value)];
          current, currentEstimate := [], None;
          estimate := estimator(calls, [candidate]);
          Asked(estimator, maxGas, calls, [candidate], estimate);
          calls := calls + 1;
          if estimate.None? {
            EmitRejected(estimator, maxGas, out, candidate, estimate);
            out := out + [Rejected(candidate)];
            if Deterministic(estimator) {
              AfterReject(estimator, maxGas, out0, current0, estimate0, candidate);
            }
            continue;
          }
        }
        if estimate.Some? && estimate.value > maxGas {
          EmitRejected(estimator, maxGas, out, candidate, estimate);
          out := out + [Rejected(candidate)];
          if Deterministic(estimator) {
            AfterReject(estimator, maxGas, out0, current0, estimate0, candidate);
          }
          continue;
        }
      }
      current := current + [candidate];
      currentEstimate := estimate;
      if Deterministic(estimator) {
        AfterAccept(estimator, maxGas, out0, current0, estimate0, candidate);
      }
    }
    assert candidates[..|candidates|] == candidates;
    ghost var open := current;
    if Deterministic(estimator) {
      PlanComplete(estimator, maxGas, candidates, out, current, currentEstimate);
    }
    if current != [] && currentEstimate.Some? {
      EmitSent(estimator, maxGas, out, current, currentEstimate.value);
      out := out + [Sent(current, currentEstimate.value)];
    }
  }

  ghost predicate AllSound<T(!new)>(estimator: Estimator<T>, maxGas: nat, out: seq<Emission<T>>) {
    forall i :: 0 <= i < |out| ==> Sound(estimator, maxGas, out[i])
  }

  /** `answer` is an estimate the estimator gave for exactly this batch, within the limit. */
  ghost predicate Within<T(!new)>(estimator: Estimator<T>, maxGas: nat, batch: seq<T>, answer: Option<nat>) {
    answer.Some? && answer.value <= maxGas && Answered(estimator, batch, answer)
  }

  lemma Asked<T(!new)>(estimator: Estimator<T>, maxGas: nat, call: nat, batch: seq<T>, answer: Option<nat>)
    requires estimator(call, batch) == answer
    ensures Answered(estimator, batch, answer)
    ensures Deterministic(estimator) ==>
              && estimator(0, batch) == answer
              && (Feasible(estimator, maxGas, batch) <==> answer.Some? && answer.value <= maxGas)
  {
  }

  lemma EmitSent<T(!new)>(estimator: Estimator<T>, maxGas: nat, out: seq<Emission<T>>, batch: seq<T>, estimate: nat)
    requires AllSound(estimator, maxGas, out) && batch != [] && Within(estimator, maxGas, batch, Some(estimate))
    ensures AllSound(estimator, maxGas, out + [Sent(batch, estimate)])
    ensures Flatten(out + [Sent(batch, estimate)]) == Flatten(out) + batch
  {
    FlattenAppend(out, Sent(batch, estimate));
  }

  lemma EmitRejected<T(!new)>(estimator: Estimator<T>, maxGas: nat, out: seq<Emission<T>>, c: T, answer: Option<nat>)
    requires AllSound(estimator, maxGas, out)
    requires Answered(estimator, [c], answer) && (answer.None? || answer.value > maxGas)
    ensures AllSound(estimator, maxGas, out + [Rejected(c)])
    ensures Flatten(out + [Rejected(c)]) == Flatten(out) + [c]
  {
    FlattenAppend(out, Rejected(c));
  }

  /** The loop's state under a deterministic estimator: a greedy plan of what was emitted,
      and a growable open batch that starts where the last sent batch had to end. */
  ghost predicate PlanSoFar<T>(
      estimator: Estimator<T>, maxGas: nat, out: seq<Emission<T>>, current: seq<T>, estimate: Option<nat>)
  {
    && (forall i :: 0 <= i < |out| ==> Greedy(estimator, maxGas, out[i]))
    && (forall i :: 0 < i < |out| ==> Closes(estimator, maxGas, out[i - 1], out[i]))
    && (current == [] && |out| > 0 ==> out[|out| - 1].Rejected?)
    && (current != [] ==>
          && Growable(estimator, maxGas, current)
          && estimator(0, current) == estimate
          && (|out| > 0 ==> Closes(estimator, maxGas, out[|out| - 1], Rejected(current[0]))))
  }

  lemma NothingEmitted<T(!new)>(estimator: Estimator<T>, maxGas: nat)
    ensures PlanSoFar(estimator, maxGas, [], [], None) && AllSound(estimator, maxGas, []) && Flatten<T>([]) == []
  {
  }

  /** What the loop has emitted once the open batch, if any, is sent. */
  ghost function Flushed<T>(out: seq<Emission<T>>, current: seq<T>, estimate: Option<nat>): seq<Emission<T>>
    requires current != [] ==> estimate.Some?
  {
    if current == [] then out else out + [Sent(current, estimate.value)]
  }

  lemma AfterReject<T>(estimator: Estimator<T>, maxGas: nat, out: seq<Emission<T>>,
                       current: seq<T>, estimate: Option<nat>, c: T)
    requires PlanSoFar(estimator, maxGas, out, current, estimate)
    requires current != [] ==> estimate.Some? && !Feasible(estimator, maxGas, current + [c])
    requires !Feasible(estimator, maxGas, [c])
    ensures PlanSoFar(estimator, maxGas, Flushed(out, current, estimate) + [Rejected(c)], [], None)
  {
    hide Growable, Feasible;
  }

  /** The candidate joins the open batch if the two fit together, else opens a new one. */
  lemma AfterAccept<T>(estimator: Estimator<T>, maxGas: nat, out: seq<Emission<T>>,
                       current: seq<T>, estimate: Option<nat>, c: T)
    requires PlanSoFar(estimator, maxGas, out, current, estimate)
    requires current != [] ==> estimate.Some?
    requires Feasible(estimator, maxGas, current + [c]) || Feasible(estimator, maxGas, [c])
    ensures Feasible(estimator, maxGas, current + [c]) ==>
              PlanSoFar(estimator, maxGas, out, current + [c], estimator(0, current + [c]))
    ensures !Feasible(estimator, maxGas, current + [c]) ==>
              PlanSoFar(estimator, maxGas, Flushed(out, current, estimate), [c], estimator(0, [c]))
  {
    assert [] + [c] == [c];
    if Feasible(estimator, maxGas, current + [c]) {
      GrowableStep(estimator, maxGas, current, c);
    } else {
      GrowableStep(estimator, maxGas, [], c);
    }
    hide Growable, Feasible;
  }

  lemma GrowableStep<T>(estimator: Estimator<T>, maxGas: nat, batch: seq<T>, c: T)
    requires Growable(estimator, maxGas, batch) && Feasible(estimator, maxGas, batch + [c])
    ensures Growable(estimator, maxGas, batch + [c])
  {
    var more := batch + [c];
    forall n | 0 < n <= |more| ensures Feasible(estimator, maxGas, more[..n]) {
      assert more[..n] == if n == |more| then more else batch[..n];
    }
  }

  lemma PlanComplete<T>(estimator: Estimator<T>, maxGas: nat, candidates: seq<T>,
                        out: seq<Emission<T>>, current: seq<T>, estimate: Option<nat>)
    requires PlanSoFar(estimator, maxGas, out, current, estimate)
    requires current != [] ==> estimate.Some?
    requires Flatten(out) + current == candidates
    ensures GreedyPlan(estimator, maxGas, candidates, Flushed(out, current, estimate))
  {
    hide Growable, Feasible;
    if current != [] {
      FlattenAppend(out, Sent(current, estimate.value));
    } else {
      assert Flatten(out) + current == Flatten(out);
    }
  }

  lemma FlattenAppend<T>(out: seq<Emission<T>>, e: Emission<T>)
    ensures Flatten(out + [e]) == Flatten(out) + e.Items()
  {
    assert (out + [e])[..|out|] == out;
  }

  lemma OneEmission<T>(out: seq<Emission<T>>)
    requires |out| == 1
    ensures Flatten(out) == out[0].Items()
  {
    assert out[..0] == [];
  }

  lemma {:induction false} FlattenHead<T>(out: seq<Emission<T>>)
    requires |out| > 0
    ensures Flatten(out) == out[0].Items() + Flatten(out[1..])
  {
    var last := |out| - 1;
    if last > 0 {
      FlattenHead(out[..last]);
      assert out[..last][1..] == out[1..][..last - 1];
      assert out[1..][last - 1] == out[last];
    } else {
      assert out[..0] == [] && out[1..] == [];
    }
  }

  // ------------------------------------------------------------ uniqueness

  lemma TailPlan<T>(estimator: Estimator<T>, maxGas: nat, candidates: seq<T>, out: seq<Emission<T>>)
    requires GreedyPlan(estimator, maxGas, candidates, out) && |out| > 0
    ensures |out[0].Items()| > 0 && out[0].Items() <= candidates
    ensures GreedyPlan(estimator, maxGas, candidates[|out[0].Items()|..], out[1..])
  {
    hide Growable, Feasible;
    FlattenHead(out);
    assert Greedy(estimator, maxGas, out[0]);
    assert candidates[|out[0].Items()|..] == Flatten(out[1..]);
    var rest := out[1..];
    forall i | 0 < i < |rest| ensures Closes(estimator, maxGas, rest[i - 1], rest[i]) {
      assert Closes(estimator, maxGas, out[i], out[i + 1]);
    }
  }

  lemma SecondStarts<T>(estimator: Estimator<T>, maxGas: nat, candidates: seq<T>, out: seq<Emission<T>>)
    requires GreedyPlan(estimator, maxGas, candidates, out)
    requires |out| > 0 && |out[0].Items()| < |candidates|
    ensures |out| > 1 && |out[1].Items()| > 0
    ensures out[1].Items()[0] == candidates[|out[0].Items()|]
    ensures Closes(estimator, maxGas, out[0], out[1])
  {
    hide Growable, Feasible;
    TailPlan(estimator, maxGas, candidates, out);
    if |out| == 1 {
      OneEmission(out);
    }
    TailPlan(estimator, maxGas, candidates[|out[0].Items()|..], out[1..]);
  }

  /** A batch cannot end strictly inside another plan's batch that starts with it. */
  lemma HeadNotShorter<T>(estimator: Estimator<T>, maxGas: nat, candidates: seq<T>,
                          out: seq<Emission<T>>, batch: seq<T>)
    requires GreedyPlan(estimator, maxGas, candidates, out)
    requires |out| > 0 && out[0].Sent?
    requires Growable(estimator, maxGas, batch) && batch <= candidates
    ensures |out[0].batch| >= |batch|
  {
    hide Feasible, Flatten;
    TailPlan(estimator, maxGas, candidates, out);
    var n := |out[0].batch|;
    if n < |batch| {
      assert out[0].batch + [batch[n]] == batch[..n + 1];
      SecondStarts(estimator, maxGas, candidates, out);
    }
  }

  lemma FirstFits<T>(estimator: Estimator<T>, maxGas: nat, batch: seq<T>)
    requires Growable(estimator, maxGas, batch) && |batch| > 0
    ensures Feasible(estimator, maxGas, [batch[0]])
  {
    assert batch[..1] == [batch[0]];
  }

  lemma HeadsAgree<T>(estimator: Estimator<T>, maxGas: nat, candidates: seq<T>,
                      out: seq<Emission<T>>, other: seq<Emission<T>>)
    requires GreedyPlan(estimator, maxGas, candidates, out) && GreedyPlan(estimator, maxGas, candidates, other)
    requires |out| > 0 && |other| > 0
    ensures out[0] == other[0]
  {
    TailPlan(estimator, maxGas, candidates, out);
    TailPlan(estimator, maxGas, candidates, other);
    hide Flatten, Closes, Feasible;
    var e, f := out[0], other[0];
    assert Greedy(estimator, maxGas, e) && Greedy(estimator, maxGas, f);
    if e.Sent? && f.Sent? {
      HeadNotShorter(estimator, maxGas, candidates, out, f.batch);
      HeadNotShorter(estimator, maxGas, candidates, other, e.batch);
      assert e.batch == f.batch;
    } else if e.Sent? {
      FirstFits(estimator, maxGas, e.batch);
    } else if f.Sent? {
      FirstFits(estimator, maxGas, f.batch);
    }
  }

  /** The declarative plan has one solution, so it says exactly what the loop emits. */
  lemma {:induction false} GreedyPlanUnique<T>(
      estimator: Estimator<T>, maxGas: nat, candidates: seq<T>, out: seq<Emission<T>>, other: seq<Emission<T>>)
    requires GreedyPlan(estimator, maxGas, candidates, out) && GreedyPlan(estimator, maxGas, candidates, other)
    ensures out == other
    decreases |out|
  {
    if |out| == 0 || |other| == 0 {
      if |other| > 0 {
        TailPlan(estimator, maxGas, candidates, other);
      } else if |out| > 0 {
        TailPlan(estimator, maxGas, candidates, out);
      }
    } else {
      HeadsAgree(estimator, maxGas, candidates, out, other);
      TailPlan(estimator, maxGas, candidates, out);
      TailPlan(estimator, maxGas, candidates, other);
      GreedyPlanUnique(estimator, maxGas, candidates[|out[0].Items()|..], out[1..], other[1..]);
      assert out == [out[0]] + out[1..] && other == [other[0]] + other[1..];
    }
  }

  // ------------------------------------------------------------- rejection

  /** A candidate that does not fit alone but can ride at the end of a growable batch. */
  ghost predicate Stowaway<T>(estimator: Estimator<T>, maxGas: nat, batch: seq<T>) {
    && |batch| > 0 && Growable(estimator, maxGas, batch)
    && !Feasible(estimator, maxGas, [batch[|batch| - 1]])
  }

  ghost predicate SentFitAlone<T>(estimator: Estimator<T>, maxGas: nat, out: seq<Emission<T>>) {
    forall i, j :: 0 <= i < |out| && out[i].Sent? && 0 <= j < |out[i].batch| ==>
      Feasible(estimator, maxGas, [out[i].batch[j]])
  }

  /** Over all candidate lists, "rejected exactly when infeasible alone" holds iff the
      estimator has no stowaways. Rejected candidates never fit alone; what can go wrong is
      a candidate that is sent although its own estimate fails. */
  lemma RejectionExactIff<T(!new)>(estimator: Estimator<T>, maxGas: nat)
    ensures (forall candidates: seq<T>, out: seq<Emission<T>> ::
               GreedyPlan(estimator, maxGas, candidates, out) ==> SentFitAlone(estimator, maxGas, out))
            <==> (forall batch :: !Stowaway(estimator, maxGas, batch))
  {
    if forall batch :: !Stowaway(estimator, maxGas, batch) {
      forall candidates: seq<T>, out: seq<Emission<T>> | GreedyPlan(estimator, maxGas, candidates, out)
        ensures SentFitAlone(estimator, maxGas, out)
      {
        forall i, j | 0 <= i < |out| && out[i].Sent? && 0 <= j < |out[i].batch|
          ensures Feasible(estimator, maxGas, [out[i].batch[j]])
        {
          assert Greedy(estimator, maxGas, out[i]);
          GrowablePrefix(estimator, maxGas, out[i].batch, j + 1);
          assert !Stowaway(estimator, maxGas, out[i].batch[..j + 1]);
        }
      }
    } else {
      var batch :| Stowaway(estimator, maxGas, batch);
      assert batch[..|batch|] == batch;
      var out := [Sent(batch, estimator(0, batch).value)];
      assert out[..0] == [];
      assert Flatten(out) == [] + batch == batch;
      assert GreedyPlan(estimator, maxGas, batch, out);
      assert !SentFitAlone(estimator, maxGas, out) by {
        assert out[0].batch[|batch| - 1] == batch[|batch| - 1];
      }
    }
  }

  lemma GrowablePrefix<T>(estimator: Estimator<T>, maxGas: nat, batch: seq<T>, n: nat)
    requires Growable(estimator, maxGas, batch) && n <= |batch|
    ensures Growable(estimator, maxGas, batch[..n])
  {
    forall m | 0 < m <= n ensures Feasible(estimator, maxGas, batch[..n][..m]) {
      assert batch[..n][..m] == batch[..m];
    }
  }

  /** "b" cannot be enabled alone, but rides with "a". */
  function Rider(): Estimator<char> {
    (call: nat, batch: seq<char>) => if batch == "b" then None else Some(|batch|)
  }

  /** Stowaways do occur: for the list "ab" the one plan sends both, although "b" alone
      would be rejected. */
  lemma StowawayExample()
    ensures Deterministic(Rider()) && Stowaway(Rider(), 2, "ab") && !Feasible(Rider(), 2, "b")
    ensures forall out :: GreedyPlan(Rider(), 2, "ab", out) <==> out == [Sent("ab", 2)]
  {
    assert "ab"[1] == 'b' && ['b'] == "b";
    forall n | 0 < n <= 2 ensures Feasible(Rider(), 2, "ab"[..n]) {
      assert "ab"[..n][0] == 'a';
    }
    assert "ab"[..2] == "ab";
    var plan := [Sent("ab", 2)];
    OneEmission(plan);
    assert GreedyPlan(Rider(), 2, "ab", plan);
    forall out | GreedyPlan(Rider(), 2, "ab", out) ensures out == plan {
      GreedyPlanUnique(Rider(), 2, "ab", out, plan);
    }
  }

  // ------------------------------------------------------------ optimality

  /** A split of the candidates into contiguous feasible batches. */
  ghost predicate FeasiblePartition<T>(estimator: Estimator<T>, maxGas: nat, candidates: seq<T>, parts: seq<seq<T>>)
    decreases |parts|
  {
    if |parts| == 0 then candidates == []
    else
      var last := parts[|parts| - 1];
      && |last| <= |candidates|
      && candidates[|candidates| - |last|..] == last
      && Feasible(estimator, maxGas, last)
      && FeasiblePartition(estimator, maxGas, candidates[..|candidates| - |last|], parts[..|parts| - 1])
  }

  ghost predicate ClosedUnderSubBatches<T(!new)>(estimator: Estimator<T>, maxGas: nat) {
    forall b: seq<T>, i, j :: 0 <= i < j <= |b| && Feasible(estimator, maxGas, b) ==>
        Feasible(estimator, maxGas, b[i..j])
  }

  lemma {:induction false} FlattenPrefix<T>(out: seq<Emission<T>>, i: nat)
    requires i <= |out|
    ensures Flatten(out[..i]) <= Flatten(out)
    decreases |out|
  {
    if i < |out| {
      var shorter := out[..|out| - 1];
      FlattenPrefix(shorter, i);
      assert shorter[..i] == out[..i];
    } else {
      assert out[..i] == out;
    }
  }

  /** Where emission `i` sits among the candidates. */
  lemma EmissionAt<T>(candidates: seq<T>, out: seq<Emission<T>>, i: nat)
    requires Flatten(out) == candidates && i < |out|
    ensures var s := |Flatten(out[..i])|;
            && s + |out[i].Items()| == |Flatten(out[..i + 1])| <= |candidates|
            && candidates[s..s + |out[i].Items()|] == out[i].Items()
  {
    FlattenPrefix(out, i + 1);
    assert out[..i + 1][..i] == out[..i];
  }

  lemma CoveredFits<T(!new)>(estimator: Estimator<T>, maxGas: nat, candidates: seq<T>, t: nat, p: nat, s: nat, m: nat)
    requires ClosedUnderSubBatches(estimator, maxGas)
    requires t <= p <= s < m <= |candidates|
    requires Feasible(estimator, maxGas, candidates[t..m])
    ensures Feasible(estimator, maxGas, candidates[p..s] + [candidates[s]])
  {
    SliceOfSlice(candidates, t, m, p - t, s + 1 - t);
    assert candidates[p..s + 1] == candidates[p..s] + [candidates[s]];
  }

  /** Greedy stays ahead: any partition reaching past the start of emission `i` already
      uses more than `i` batches. */
  lemma {:induction false} StaysAhead<T(!new)>(
      estimator: Estimator<T>, maxGas: nat, candidates: seq<T>, out: seq<Emission<T>>, i: nat, m: nat,
      parts: seq<seq<T>>)
    requires GreedyPlan(estimator, maxGas, candidates, out) && ClosedUnderSubBatches(estimator, maxGas)
    requires forall k :: 0 <= k < |out| ==> out[k].Sent?
    requires i < |out| && |Flatten(out[..i])| < m <= |candidates|
    requires FeasiblePartition(estimator, maxGas, candidates[..m], parts)
    ensures |parts| > i
    decreases i, |parts|
  {
    hide Feasible, Growable, ClosedUnderSubBatches;
    if i > 0 && |parts| > 0 {
      var last := parts[|parts| - 1];
      var t := m - |last|;
      assert candidates[..m][..t] == candidates[..t] && candidates[..m][t..] == candidates[t..m];
      EmissionAt(candidates, out, i - 1);
      EmissionAt(candidates, out, i);
      var p, s := |Flatten(out[..i - 1])|, |Flatten(out[..i])|;
      if t > p {
        StaysAhead(estimator, maxGas, candidates, out, i - 1, t, parts[..|parts| - 1]);
      } else {
        // The last part would cover the whole previous batch and one candidate more.
        CoveredFits(estimator, maxGas, candidates, t, p, s, m);
        assert Greedy(estimator, maxGas, out[i]) && Closes(estimator, maxGas, out[i - 1], out[i]);
        assert candidates[s] == out[i].batch[0];
      }
    }
  }

  lemma RejectedCandidate<T>(estimator: Estimator<T>, maxGas: nat, candidates: seq<T>, out: seq<Emission<T>>, k: nat)
    requires GreedyPlan(estimator, maxGas, candidates, out) && k < |out| && out[k].Rejected?
    ensures out[k].candidate in candidates && !Feasible(estimator, maxGas, [out[k].candidate])
  {
    hide Feasible;
    EmissionAt(candidates, out, k);
    assert candidates[|Flatten(out[..k])|] == out[k].candidate;
    assert Greedy(estimator, maxGas, out[k]);
  }

  /** If every candidate fits alone and feasibility is inherited by contiguous sub-batches,
      nothing is rejected and no contiguous partition into feasible batches is shorter. */
  lemma FewestBatches<T(!new)>(
      estimator: Estimator<T>, maxGas: nat, candidates: seq<T>, out: seq<Emission<T>>, parts: seq<seq<T>>)
    requires GreedyPlan(estimator, maxGas, candidates, out) && ClosedUnderSubBatches(estimator, maxGas)
    requires forall c :: c in candidates ==> Feasible(estimator, maxGas, [c])
    requires FeasiblePartition(estimator, maxGas, candidates, parts)
    ensures forall k :: 0 <= k < |out| ==> out[k].Sent?
    ensures |out| <= |parts|
  {
    hide ClosedUnderSubBatches, FeasiblePartition;
    forall k | 0 <= k < |out| ensures out[k].Sent? {
      if out[k].Rejected? {
        RejectedCandidate(estimator, maxGas, candidates, out, k);
      }
    }
    if |out| > 0 {
      var last := |out| - 1;
      EmissionAt(candidates, out, last);
      assert Greedy(estimator, maxGas, out[last]);
      assert candidates[..|candidates|] == candidates;
      StaysAhead(estimator, maxGas, candidates, out, last, |candidates|, parts);
    }
  }
}
