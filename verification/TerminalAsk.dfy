/** The latent terminal ask against the exact geometric decay of the starting price
    (latent_terminal_full_lot_ask_raw in tidal/auction_price_units.py). */
module TerminalAsk {
  import opened Common
  import opened PriceUnits

  /** The ask, scaled back to 36 decimals of want, is the starting price decayed by
      `decayBps` once per full step, up to three roundings: half a price unit for the
      initial price and for the last product, and the power's own (steps - 1)/2 ray units.
      The ask is rounded down, so one unit more is above. Everything is multiplied by
      4 * 10^27 * 10000^steps to stay within the integers. */
  ghost predicate AskNear(input: AskInput, ask: int)
    requires input.Valid()
  {
    var steps := input.auctionSeconds / input.stepSeconds;
    var start := input.startingPrice * if input.encoding.WholeWant? then Pow(10, 18) else 1;
    var lot := input.sellAmount * Pow(10, 18 - input.sellDecimals);
    var unit := Pow(10, 18) * Pow(10, 18 - input.wantDecimals);
    var left, whole := Pow(10_000 - input.decayBps, steps), Pow(10_000, steps);
    var slack := Slack(start, lot, left, whole, steps);
    && 0 <= ask
    && 4 * Pow(10, 27) * (ask * unit * whole - start * Pow(10, 18) * left) <= slack
    && 4 * Pow(10, 27) * ((ask + 1) * unit * whole - start * Pow(10, 18) * left) > -slack
  }

  function Slack(start: int, lot: int, left: int, whole: int, steps: nat): int {
    2 * lot * (Pow(10, 27) * (whole + left))
    + (if steps == 0 then 0 else steps - 1) * whole * (2 * start * Pow(10, 18) + lot)
  }

  lemma TenTo()
    ensures Pow(10, 18) == WAD && Pow(10, 27) == RAY
  {
    TenPowers(0);
    assert Pow(10, 9) == 1_000_000_000;
    PowAdd(10, 18, 9);
  }

  lemma {:induction false} PowMul(a: int, c: int, n: nat)
    ensures Pow(a * c, n) == Pow(a, n) * Pow(c, n)
  {
    if n > 0 {
      PowMul(a, c, n - 1);
      Shuffle(a, c, Pow(a, n - 1), Pow(c, n - 1));
    }
  }

  lemma Shuffle(a: int, c: int, p: int, q: int)
    ensures (a * c) * (p * q) == (a * p) * (c * q)
  {
    assert (a * c) * (p * q) == a * (c * (p * q));
    assert c * (p * q) == p * (c * q);
    assert a * (p * (c * q)) == (a * p) * (c * q);
  }

  lemma FloorTwiceAbove(m: int, d: int, e: int)
    requires 0 <= m && d > 0 && e > 0
    ensures m < (m / d / e + 1) * (d * e)
  {
    var q := m / d;
    assert m == q * d + m % d;
    assert q == (q / e) * e + q % e;
    MulMonotone(q + 1, (q / e + 1) * e, d);
    assert ((q / e + 1) * e) * d == (q / e + 1) * (d * e);
  }

  lemma CancelAbs(u: int, bound: int, c: int)
    requires c > 0 && Abs(u * c) <= bound * c
    ensures Abs(u) <= bound
  {
    if u > bound {
      MulMonotone(bound + 1, u, c);
    }
    if -u > bound {
      MulMonotone(bound + 1, -u, c);
    }
  }

  /** The error of the terminal price, with the ray powers cancelled down to basis points. */
  lemma PriceError(t: int, i: int, left: int, whole: int, c: int, p: int, steps: nat)
    requires steps >= 1 && c > 0 && RAY * p == whole * c
    requires 2 * Abs(t * (whole * c) - i * (left * c)) <= whole * c + i * ((steps - 1) * p)
    ensures 2 * RAY * Abs(t * whole - i * left) <= RAY * whole + i * ((steps - 1) * whole)
  {
    var u := t * whole - i * left;
    assert t * (whole * c) - i * (left * c) == u * c;
    AbsScale(2 * (u * c), whole * c + i * ((steps - 1) * p), RAY);
    assert 2 * (u * c) * RAY == (2 * RAY * u) * c;
    assert (i * ((steps - 1) * p)) * RAY == (i * (steps - 1)) * (RAY * p);
    assert (i * (steps - 1)) * (whole * c) == (i * ((steps - 1) * whole)) * c;
    assert (whole * c + i * ((steps - 1) * p)) * RAY == (RAY * whole + i * ((steps - 1) * whole)) * c;
    CancelAbs(2 * RAY * u, RAY * whole + i * ((steps - 1) * whole), c);
    assert Abs(2 * RAY * u) == 2 * RAY * Abs(u);
  }

  lemma TerminalPriceError(input: AskInput)
    requires input.Valid() && input.Available() > 0
    ensures var steps := input.auctionSeconds / input.stepSeconds;
            var initial := Wdiv(input.StartWad(), input.Available()).value;
            var left, whole := Pow(BPS - input.decayBps, steps), Pow(BPS, steps);
            2 * RAY * Abs(TerminalPrice(input) * whole - initial * left)
            <= RAY * whole + initial * ((if steps == 0 then 0 else steps - 1) * whole)
  {
    var steps := input.auctionSeconds / input.stepSeconds;
    var initial := Wdiv(input.StartWad(), input.Available()).value;
    if steps == 0 {
      RmulBounds(initial, RAY);
      assert TerminalPrice(input) == Rmul(initial, RAY) == initial;
    } else {
      TerminalPriceNearDecay(input, steps);
      var c := Pow(RAY_PER_BPS, steps);
      PowPositive(RAY_PER_BPS, steps);
      PowMul(BPS - input.decayBps, RAY_PER_BPS, steps);
      PowMul(BPS, RAY_PER_BPS, steps);
      assert input.Multiplier() == (BPS - input.decayBps) * RAY_PER_BPS;
      hide TerminalPrice;
      PriceError(TerminalPrice(input), initial, Pow(BPS - input.decayBps, steps), Pow(BPS, steps), c,
                 Pow(RAY, steps - 1), steps);
    }
  }

  lemma SplitLot(t: int, i: int, start: int, lot: int, left: int, whole: int)
    ensures lot * t * whole - start * WAD * left
            == lot * (t * whole - i * left) + left * (i * lot - start * WAD)
  {
    assert lot * (t * whole - i * left) == lot * (t * whole) - lot * (i * left);
    assert left * (i * lot - start * WAD) == left * (i * lot) - left * (start * WAD);
    assert lot * (i * left) == left * (i * lot);
    assert lot * t * whole == lot * (t * whole);
    assert start * WAD * left == left * (start * WAD);
  }

  /** The price's error, carried by the lot; the initial price is at most what was asked
      for plus its rounding. */
  lemma CarriedByLot(u: int, i: int, start: int, lot: int, whole: int, k: nat)
    requires lot > 0 && whole >= 0
    requires 2 * RAY * Abs(u) <= RAY * whole + i * (k * whole)
    requires 2 * (i * lot) <= 2 * (start * WAD) + lot
    ensures 4 * RAY * Abs(lot * u) <= 2 * (RAY * (whole * lot)) + k * whole * (2 * start * WAD + lot)
  {
    AbsScale(2 * RAY * u, RAY * whole + i * (k * whole), lot);
    Reorder(u, i, lot, whole, k);
    MulMonotone(0, k, whole);
    MulMonotone(2 * (i * lot), 2 * (start * WAD) + lot, k * whole);
    Commute(2 * (start * WAD) + lot, k * whole);
    assert 2 * start * WAD + lot == 2 * (start * WAD) + lot;
    Twice(i * lot, k * whole);
    Commute(i * lot, k * whole);
  }

  lemma Reorder(u: int, i: int, lot: int, whole: int, k: int)
    ensures (2 * RAY * u) * lot == 2 * RAY * (lot * u)
    ensures (RAY * whole + i * (k * whole)) * lot == RAY * (whole * lot) + (k * whole) * (i * lot)
  {
    assert (RAY * whole) * lot == RAY * (whole * lot);
    assert (i * (k * whole)) * lot == (k * whole) * (i * lot);
  }

  lemma CarriedByDecay(v: int, lot: int, left: int)
    requires left >= 0 && 2 * Abs(v) <= lot
    ensures 4 * RAY * Abs(left * v) <= 2 * (RAY * (lot * left))
  {
    AbsScale(2 * v, lot, left);
    Twice(v, left);
    Commute(v, left);
  }

  lemma AbsSum(a: int, b: int, m: int, n: int)
    requires 4 * RAY * Abs(a) <= m && 4 * RAY * Abs(b) <= n
    ensures 4 * RAY * Abs(a + b) <= m + n
  {
  }

  /** Price error and division error together, over the whole lot. */
  lemma LotError(t: int, i: int, start: int, lot: int, left: int, whole: int, k: nat)
    requires lot > 0 && left >= 0 && whole >= 0
    requires 2 * RAY * Abs(t * whole - i * left) <= RAY * whole + i * (k * whole)
    requires 2 * Abs(i * lot - start * WAD) <= lot
    ensures 4 * RAY * Abs(lot * t * whole - start * WAD * left)
            <= 2 * lot * (RAY * (whole + left)) + k * whole * (2 * start * WAD + lot)
  {
    var u, v := t * whole - i * left, i * lot - start * WAD;
    SplitLot(t, i, start, lot, left, whole);
    CarriedByLot(u, i, start, lot, whole, k);
    CarriedByDecay(v, lot, left);
    AbsSum(lot * u, left * v, 2 * (RAY * (whole * lot)) + k * whole * (2 * start * WAD + lot),
           2 * (RAY * (lot * left)));
    SplitRay(lot, whole, left);
  }

  lemma SplitRay(lot: int, whole: int, left: int)
    ensures 2 * lot * (RAY * (whole + left)) == 2 * (RAY * (whole * lot)) + 2 * (RAY * (lot * left))
  {
    assert lot * (whole + left) == whole * lot + lot * left;
    assert 2 * lot * (RAY * (whole + left)) == 2 * (RAY * (lot * (whole + left)));
  }

  lemma SlackIs(start: int, lot: int, left: int, whole: int, steps: nat)
    ensures Slack(start, lot, left, whole, steps)
            == 2 * lot * (RAY * (whole + left))
               + (if steps == 0 then 0 else steps - 1) * whole * (2 * start * WAD + lot)
  {
    TenTo();
  }

  /** Rounding down: scaled up, the ask is at most what the lot is worth, one more is above. */
  lemma AskRounds(value: int, unit: int, ask: int, exact: int, left: int, whole: int, slack: int)
    requires whole > 0 && ask * unit <= value < (ask + 1) * unit
    requires 4 * RAY * Abs(value * whole - exact) <= slack
    ensures 4 * RAY * (ask * unit * whole - exact) <= slack
    ensures 4 * RAY * ((ask + 1) * unit * whole - exact) > -slack
  {
    MulMonotone(ask * unit, value, whole);
    MulMonotone(value + 1, (ask + 1) * unit, whole);
  }

  /** The ask of every valid input follows the exact decay of its starting price. */
  lemma AskFollowsDecay(input: AskInput)
    requires input.Valid()
    ensures LatentTerminalAsk(input).Ok? && AskNear(input, LatentTerminalAsk(input).value)
  {
    ScalersPositive(input);
    TenTo();
    var steps: nat := input.auctionSeconds / input.stepSeconds;
    var start, lot, t := input.StartWad(), input.Available(), TerminalPrice(input);
    var initial := Wdiv(start, lot).value;
    var left, whole := Pow(10_000 - input.decayBps, steps), Pow(10_000, steps);
    PowPositive(10_000, steps);
    PowPositive(10_000 - input.decayBps, steps);
    WdivBounds(start, lot);
    TerminalPriceError(input);
    TerminalAskBelowStart(input);
    TerminalNonNegative(input);
    hide TerminalPrice, Slack;
    var k: nat := if steps == 0 then 0 else steps - 1;
    LotError(t, initial, start, lot, left, whole, k);
    SlackIs(start, lot, left, whole, steps);
    var ask, ws := LatentTerminalAsk(input).value, input.WantScaler();
    assert ask == (lot * t) / WAD / ws;
    FloorTwice(lot * t, WAD, ws);
    FloorTwiceAbove(lot * t, WAD, ws);
    AskRounds(lot * t, WAD * ws, ask, start * WAD * left, left, whole, Slack(start, lot, left, whole, steps));
  }

  lemma TerminalNonNegative(input: AskInput)
    requires input.Valid() && input.Available() > 0
    ensures 0 <= input.Available() * TerminalPrice(input)
  {
    ScalersPositive(input);
    var initial := Wdiv(input.StartWad(), input.Available()).value;
    var n := input.auctionSeconds / input.stepSeconds;
    WdivBounds(input.StartWad(), input.Available());
    RpowNear(input.Multiplier(), n);
    RmulRange(initial, Rpow(input.Multiplier(), n));
    MulMonotone(0, TerminalPrice(input), input.Available());
  }
}
