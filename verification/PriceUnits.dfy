/** Fixed-point auction arithmetic (tidal/auction_price_units.py): starting-price
    encodings, ray/wad products and powers, and the latent terminal ask. */
module PriceUnits {
  import opened Common

  const WAD: int := 1_000_000_000_000_000_000
  const RAY: int := 1_000_000_000_000_000_000_000_000_000
  const BPS: int := 10_000
  const RAY_PER_BPS: int := 100_000_000_000_000_000_000_000
  const MIN_WAD_PRICE: int := 1_000_000_000

  datatype Encoding = WholeWant | WadWant | Unsupported

  datatype PriceError =
    | NonPositiveDenominator
    | NonPositiveQuote
    | DecimalsOutOfRange
    | NegativeBuffer
    | UnsupportedEncoding
    | BelowWadMinimum
    | NegativeExponent
    | NonPositivePrice
    | NonPositiveSellAmount
    | DecayOutOfRange
    | NonPositiveTiming

  function Pow(b: int, e: nat): int {
    if e == 0 then 1 else b * Pow(b, e - 1)
  }

  // ---------------------------------------------------------------- rounding

  function CeilDiv(numerator: int, denominator: int): Result<int, PriceError> {
    if denominator <= 0 then Err(NonPositiveDenominator)
    else Ok((numerator + denominator - 1) / denominator)
  }

  /** The least multiple that covers: `q` is the ceiling iff it covers and `q - 1` does not. */
  ghost predicate IsCeil(q: int, numerator: int, denominator: int)
    requires denominator > 0
  {
    q * denominator >= numerator > (q - 1) * denominator
  }

  lemma CeilDivIsCeil(numerator: int, denominator: int)
    requires denominator > 0
    ensures CeilDiv(numerator, denominator).Ok?
    ensures IsCeil(CeilDiv(numerator, denominator).value, numerator, denominator)
  {
    var m := numerator + denominator - 1;
    var q := m / denominator;
    assert m == q * denominator + m % denominator;
  }

  lemma CeilUnique(q: int, p: int, numerator: int, denominator: int)
    requires denominator > 0
    requires IsCeil(q, numerator, denominator) && IsCeil(p, numerator, denominator)
    ensures q == p
  {
    if q < p {
      MulMonotone(q, p - 1, denominator);
    } else if p < q {
      MulMonotone(p, q - 1, denominator);
    }
  }

  lemma MulMonotone(a: int, b: int, m: int)
    requires a <= b && 0 <= m
    ensures a * m <= b * m
  {
    assert (b - a) * m >= 0;
  }

  lemma CeilMonotone(q: int, p: int, n: int, m: int, denominator: int)
    requires denominator > 0 && n <= m
    requires IsCeil(q, n, denominator) && IsCeil(p, m, denominator)
    ensures q <= p
  {
    if p < q {
      MulMonotone(p, q - 1, denominator);
    }
  }

  /** Rounding up in two stages is rounding up once. */
  lemma CeilOfCeil(inner: int, outer: int, numerator: int, d1: int, d2: int)
    requires d1 > 0 && d2 > 0 && d1 * d2 > 0
    requires IsCeil(inner, numerator, d1) && IsCeil(outer, inner, d2)
    ensures IsCeil(outer, numerator, d1 * d2)
  {
    MulMonotone(inner, outer * d2, d1);
    assert (outer * d2) * d1 == outer * (d1 * d2);
    MulMonotone((outer - 1) * d2, inner - 1, d1);
    assert ((outer - 1) * d2) * d1 == (outer - 1) * (d1 * d2);
  }

  lemma PowPositive(b: int, e: nat)
    requires b > 0
    ensures Pow(b, e) > 0
  {
    if e > 0 {
      PowPositive(b, e - 1);
      assert b * Pow(b, e - 1) > 0;
    }
  }

  lemma {:induction false} PowAdd(b: int, m: nat, n: nat)
    ensures Pow(b, m + n) == Pow(b, m) * Pow(b, n)
  {
    if m > 0 {
      PowAdd(b, m - 1, n);
      assert Pow(b, m + n) == b * Pow(b, m - 1 + n);
      assert b * (Pow(b, m - 1) * Pow(b, n)) == (b * Pow(b, m - 1)) * Pow(b, n);
    }
  }

  // ------------------------------------------------------ starting price

  function EncodeStartingPrice(amountOut: int, wantDecimals: int, bufferBps: int, encoding: Encoding)
      : Result<int, PriceError>
  {
    if amountOut <= 0 then Err(NonPositiveQuote)
    else if !(0 <= wantDecimals <= 18) then Err(DecimalsOutOfRange)
    else if bufferBps < 0 then Err(NegativeBuffer)
    else
      var buffered := amountOut * (BPS + bufferBps);
      match encoding
      case Unsupported => Err(UnsupportedEncoding)
      case WholeWant =>
        CeilDiv(buffered, BPS * Pow(10, wantDecimals))
      case WadWant =>
        var encoded := CeilDiv(buffered * Pow(10, 18 - wantDecimals), BPS);
        if encoded.Ok? && encoded.value <= MIN_WAD_PRICE then Err(BelowWadMinimum) else encoded
  }

  /** The quote, buffered, as an exact numerator over `BPS` raw want units. */
  function Buffered(amountOut: int, bufferBps: int): int {
    amountOut * (BPS + bufferBps)
  }

  ghost predicate ValidQuote(amountOut: int, wantDecimals: int, bufferBps: int) {
    amountOut > 0 && 0 <= wantDecimals <= 18 && bufferBps >= 0
  }

  lemma BufferedPositive(amountOut: int, bufferBps: int)
    requires amountOut > 0 && bufferBps >= 0
    ensures Buffered(amountOut, bufferBps) >= BPS
  {
    MulMonotone(1, amountOut, BPS + bufferBps);
  }

  lemma TenPowers(wantDecimals: nat)
    requires wantDecimals <= 18
    ensures Pow(10, wantDecimals) > 0 && Pow(10, 18 - wantDecimals) > 0
    ensures Pow(10, wantDecimals) * Pow(10, 18 - wantDecimals) == WAD
  {
    PowPositive(10, wantDecimals);
    PowPositive(10, 18 - wantDecimals);
    PowAdd(10, wantDecimals, 18 - wantDecimals);
    assert Pow(10, 6) == 1_000_000;
    PowAdd(10, 6, 6);
    PowAdd(10, 12, 6);
  }

  /** A whole-want price is the least whole number of want tokens covering the buffered
      quote, and every valid quote has one. */
  lemma WholeWantCovers(amountOut: int, wantDecimals: int, bufferBps: int)
    requires ValidQuote(amountOut, wantDecimals, bufferBps)
    ensures var r := EncodeStartingPrice(amountOut, wantDecimals, bufferBps, WholeWant);
            && BPS * Pow(10, wantDecimals) > 0
            && r.Ok? && r.value > 0
            && IsCeil(r.value, Buffered(amountOut, bufferBps), BPS * Pow(10, wantDecimals))
  {
    TenPowers(wantDecimals);
    var unit := BPS * Pow(10, wantDecimals);
    assert unit > 0;
    CeilDivIsCeil(Buffered(amountOut, bufferBps), unit);
    BufferedPositive(amountOut, bufferBps);
    var q := EncodeStartingPrice(amountOut, wantDecimals, bufferBps, WholeWant).value;
    if q <= 0 {
      MulMonotone(q, 0, unit);
    }
  }

  /** A wad-want price is the least wad amount covering the buffered quote; it is refused
      exactly when that least amount is at or below the auction's minimum. */
  lemma WadWantCovers(amountOut: int, wantDecimals: int, bufferBps: int, q: int)
    requires ValidQuote(amountOut, wantDecimals, bufferBps)
    requires IsCeil(q, Buffered(amountOut, bufferBps) * Pow(10, 18 - wantDecimals), BPS)
    ensures EncodeStartingPrice(amountOut, wantDecimals, bufferBps, WadWant) ==
            if q > MIN_WAD_PRICE then Ok(q) else Err(BelowWadMinimum)
  {
    var scaled := Buffered(amountOut, bufferBps) * Pow(10, 18 - wantDecimals);
    CeilDivIsCeil(scaled, BPS);
    CeilUnique(q, CeilDiv(scaled, BPS).value, scaled, BPS);
  }

  /** Exactly these quotes are encoded: positive ones with supported decimals and no
      negative buffer, and in wad only those worth more than 10^9 wei. */
  lemma EncodedIff(amountOut: int, wantDecimals: int, bufferBps: int, encoding: Encoding)
    ensures EncodeStartingPrice(amountOut, wantDecimals, bufferBps, encoding).Ok? <==>
              && amountOut > 0 && 0 <= wantDecimals <= 18 && bufferBps >= 0
              && match encoding {
                   case WholeWant => true
                   case WadWant =>
                     amountOut * (10_000 + bufferBps) * Pow(10, 18 - wantDecimals) > 10_000 * 1_000_000_000
                   case Unsupported => false
                 }
  {
    if ValidQuote(amountOut, wantDecimals, bufferBps) {
      if encoding.WholeWant? {
        WholeWantCovers(amountOut, wantDecimals, bufferBps);
      } else if encoding.WadWant? {
        var scaled := Buffered(amountOut, bufferBps) * Pow(10, 18 - wantDecimals);
        CeilDivIsCeil(scaled, BPS);
        WadWantCovers(amountOut, wantDecimals, bufferBps, CeilDiv(scaled, BPS).value);
      }
    }
  }

  /** Encoding never undercuts a larger quote or a larger buffer. */
  lemma EncodingMonotone(a1: int, a2: int, wantDecimals: int, b1: int, b2: int, encoding: Encoding)
    requires ValidQuote(a1, wantDecimals, b1) && a1 <= a2 && b1 <= b2
    requires !encoding.Unsupported?
    ensures var r1 := EncodeStartingPrice(a1, wantDecimals, b1, encoding);
            var r2 := EncodeStartingPrice(a2, wantDecimals, b2, encoding);
            r1.Ok? ==> r2.Ok? && r1.value <= r2.value
  {
    TenPowers(wantDecimals);
    MulMonotone(a1, a2, BPS + b1);
    MulMonotone(BPS + b1, BPS + b2, a2);
    var n1, n2 := Buffered(a1, b1), Buffered(a2, b2);
    assert n1 <= n2;
    if encoding.WholeWant? {
      WholeWantCovers(a1, wantDecimals, b1);
      WholeWantCovers(a2, wantDecimals, b2);
      CeilMonotone(EncodeStartingPrice(a1, wantDecimals, b1, encoding).value,
                   EncodeStartingPrice(a2, wantDecimals, b2, encoding).value,
                   n1, n2, BPS * Pow(10, wantDecimals));
    } else {
      var k := Pow(10, 18 - wantDecimals);
      MulMonotone(n1, n2, k);
      CeilDivIsCeil(n1 * k, BPS);
      CeilDivIsCeil(n2 * k, BPS);
      CeilMonotone(CeilDiv(n1 * k, BPS).value, CeilDiv(n2 * k, BPS).value, n1 * k, n2 * k, BPS);
    }
  }

  /** Whenever both encodings accept a quote, the whole-want price is the wad-want price
      rounded up to whole tokens. */
  lemma EncodingsAgree(amountOut: int, wantDecimals: int, bufferBps: int)
    requires EncodeStartingPrice(amountOut, wantDecimals, bufferBps, WholeWant).Ok?
    requires EncodeStartingPrice(amountOut, wantDecimals, bufferBps, WadWant).Ok?
    ensures IsCeil(EncodeStartingPrice(amountOut, wantDecimals, bufferBps, WholeWant).value,
                   EncodeStartingPrice(amountOut, wantDecimals, bufferBps, WadWant).value, WAD)
  {
    TenPowers(wantDecimals);
    WholeWantCovers(amountOut, wantDecimals, bufferBps);
    var b, k := Buffered(amountOut, bufferBps), Pow(10, 18 - wantDecimals);
    CeilDivIsCeil(b * k, BPS);
    CeilAcrossUnits(b, Pow(10, wantDecimals), k,
                    EncodeStartingPrice(amountOut, wantDecimals, bufferBps, WholeWant).value,
                    EncodeStartingPrice(amountOut, wantDecimals, bufferBps, WadWant).value);
  }

  lemma CeilAcrossUnits(b: int, unit: int, k: int, whole: int, wad: int)
    requires unit > 0 && k > 0 && unit * k == WAD && BPS * unit > 0
    requires IsCeil(whole, b, BPS * unit) && IsCeil(wad, b * k, BPS)
    ensures IsCeil(whole, wad, WAD)
  {
    CeilDivIsCeil(wad, WAD);
    var outer := CeilDiv(wad, WAD).value;
    CeilOfCeil(wad, outer, b * k, BPS, WAD);
    assert BPS * WAD == (BPS * unit) * k;
    Descale(outer, b, BPS * unit, k);
    CeilUnique(outer, whole, b, BPS * unit);
  }

  lemma Descale(q: int, n: int, d: int, k: int)
    requires d > 0 && k > 0 && d * k > 0
    requires IsCeil(q, n * k, d * k)
    ensures IsCeil(q, n, d)
  {
    assert q * (d * k) == (q * d) * k;
    assert (q - 1) * (d * k) == ((q - 1) * d) * k;
    if q * d < n {
      MulMonotone(q * d + 1, n, k);
    }
    if (q - 1) * d >= n {
      MulMonotone(n, (q - 1) * d, k);
    }
  }

  /** The decoded amount in want tokens, exact. */
  function DecodeStartingPrice(raw: int, encoding: Encoding): Result<real, PriceError> {
    if raw <= 0 then Err(NonPositivePrice)
    else match encoding
      case WholeWant => Ok(raw as real)
      case WadWant => Ok(raw as real / WAD as real)
      case Unsupported => Err(UnsupportedEncoding)
  }

  /** Encoding units per want token. */
  function UnitsPerToken(encoding: Encoding): int {
    if encoding.WadWant? then WAD else 1
  }

  lemma EncodedBracket(amountOut: int, wantDecimals: int, bufferBps: int, encoding: Encoding)
    requires EncodeStartingPrice(amountOut, wantDecimals, bufferBps, encoding).Ok?
    ensures BPS * Pow(10, wantDecimals) > 0
    ensures var raw := EncodeStartingPrice(amountOut, wantDecimals, bufferBps, encoding).value;
            raw > 0
            && IsCeil(raw, Buffered(amountOut, bufferBps) * UnitsPerToken(encoding), BPS * Pow(10, wantDecimals))
  {
    TenPowers(wantDecimals);
    var b, t := Buffered(amountOut, bufferBps), Pow(10, wantDecimals);
    if encoding.WholeWant? {
      WholeWantCovers(amountOut, wantDecimals, bufferBps);
    } else {
      var k := Pow(10, 18 - wantDecimals);
      CeilDivIsCeil(b * k, BPS);
      CeilScale(CeilDiv(b * k, BPS).value, b, k, t);
    }
  }

  /** Decoding an accepted starting price gives at least the buffered quote, and one
      encoding unit less (one token, or one wei) would no longer cover it. */
  lemma DecodeEncodeCovers(amountOut: int, wantDecimals: int, bufferBps: int, encoding: Encoding, raw: int)
    requires EncodeStartingPrice(amountOut, wantDecimals, bufferBps, encoding) == Ok(raw)
    ensures var amount := DecodeStartingPrice(raw, encoding);
            var unit := 1.0 / UnitsPerToken(encoding) as real;
            var scale := (BPS * Pow(10, wantDecimals)) as real;
            amount.Ok? && CoversTightly(amount.value, unit, scale, Buffered(amountOut, bufferBps) as real)
  {
    EncodedBracket(amountOut, wantDecimals, bufferBps, encoding);
    RealCover(raw, Buffered(amountOut, bufferBps), BPS * Pow(10, wantDecimals), UnitsPerToken(encoding));
    assert raw as real / 1.0 == raw as real;
  }

  /** `amount` reaches `quoted` at this scale and `amount - unit` does not. */
  ghost predicate CoversTightly(amount: real, unit: real, scale: real, quoted: real) {
    amount * scale >= quoted > (amount - unit) * scale
  }

  lemma CeilScale(q: int, b: int, k: int, t: int)
    requires k > 0 && t > 0 && t * k == WAD && BPS * t > 0
    requires IsCeil(q, b * k, BPS)
    ensures IsCeil(q, b * WAD, BPS * t)
  {
    MulMonotone(b * k, q * BPS, t);
    MulMonotone((q - 1) * BPS + 1, b * k, t);
    assert (b * k) * t == b * WAD;
  }

  lemma RealCover(raw: int, n: int, d: int, u: int)
    requires d > 0 && u > 0 && IsCeil(raw, n * u, d)
    ensures CoversTightly(raw as real / u as real, 1.0 / u as real, d as real, n as real)
  {
    var a, e, w := raw as real / u as real, 1.0 / u as real, u as real;
    assert a * w == raw as real && e * w == 1.0;
    assert (a * d as real) * w == (raw * d) as real;
    assert ((a - e) * d as real) * w == ((raw - 1) * d) as real;
    assert n as real * w == (n * u) as real;
    CancelReal(n as real, a * d as real, w);
    if (a - e) * d as real >= n as real {
      MulMonotoneReal(n as real, (a - e) * d as real, w);
    }
  }

  lemma CancelReal(a: real, b: real, m: real)
    requires m > 0.0 && a * m <= b * m
    ensures a <= b
  {
    if b < a {
      MulPositiveReal(a - b, m);
    }
  }

  lemma MulMonotoneReal(a: real, b: real, m: real)
    requires a <= b && m >= 0.0
    ensures a * m <= b * m
  {
    assert (b - a) * m >= 0.0;
  }

  lemma MulPositiveReal(a: real, m: real)
    requires a > 0.0 && m > 0.0
    ensures a * m > 0.0
  {
  }

  // ------------------------------------------------------------ wad and ray

  function Wdiv(x: int, y: int): Result<int, PriceError> {
    if y <= 0 then Err(NonPositiveDenominator) else Ok((x * WAD + y / 2) / y)
  }

  function Rmul(x: int, y: int): int {
    (x * y + RAY / 2) / RAY
  }

  /** The square-and-multiply loop on its remaining exponent. */
  function RpowFrom(x: int, z: int, n: nat): int
    decreases n
  {
    if n == 0 then z
    else
      var x' := Rmul(x, x);
      RpowFrom(x', if n % 2 == 1 then Rmul(z, x') else z, n / 2)
  }

  function Rpow(x: int, n: nat): int {
    RpowFrom(x, if n % 2 == 1 then x else RAY, n / 2)
  }

  /** `z` is x^k in ray units, off by at most (k - 1)/2: that is,
      2 * |z * RAY^(k-1) - x^k| <= (k - 1) * RAY^(k-1). The zeroth power is exact. */
  ghost predicate NearPower(z: int, x: int, k: nat) {
    && 0 <= z <= RAY
    && if k == 0 then z == RAY
       else 2 * Abs(z * Pow(RAY, k - 1) - Pow(x, k)) <= (k - 1) * Pow(RAY, k - 1)
  }

  method RaiseRay(base: int, exponent: int) returns (r: Result<int, PriceError>)
    ensures exponent < 0 ==> r == Err(NegativeExponent)
    ensures exponent >= 0 ==> r == Ok(Rpow(base, exponent))
    ensures exponent >= 0 && 0 <= base <= RAY ==> NearPower(r.value, base, exponent)
  {
    if exponent < 0 {
      return Err(NegativeExponent);
    }
    var x, n := base, exponent;
    var z := if n % 2 == 1 then x else RAY;
    n := n / 2;
    while n != 0
      invariant n >= 0
      invariant RpowFrom(x, z, n) == Rpow(base, exponent)
    {
      x := Rmul(x, x);
      if n % 2 == 1 {
        z := Rmul(z, x);
      }
      n := n / 2;
    }
    if 0 <= base <= RAY {
      RpowNear(base, exponent);
    }
    return Ok(z);
  }

  lemma RmulBounds(x: int, y: int)
    ensures 2 * Abs(Rmul(x, y) * RAY - x * y) <= RAY
  {
    var m := x * y + RAY / 2;
    assert m == (m / RAY) * RAY + m % RAY;
  }

  lemma RmulRange(x: int, y: int)
    requires 0 <= x && 0 <= y <= RAY
    ensures 0 <= Rmul(x, y) <= x
  {
    RmulBounds(x, y);
    MulMonotone(0, x, y);
    MulMonotone(y, RAY, x);
    var q := Rmul(x, y);
    assert x * y + RAY / 2 == q * RAY + (x * y + RAY / 2) % RAY;
    if q > x {
      MulMonotone(x + 1, q, RAY);
    }
    if q < 0 {
      MulMonotone(q, -1, RAY);
    }
  }

  lemma RmulMonotone(x: int, y: int, u: int, v: int)
    requires 0 <= x <= u && 0 <= y <= v
    ensures Rmul(x, y) <= Rmul(u, v)
  {
    MulMonotone(x, u, y);
    MulMonotone(y, v, u);
    DivMonotone(x * y + RAY / 2, u * v + RAY / 2, RAY);
  }

  lemma DivMonotone(a: int, b: int, d: int)
    requires a <= b && d > 0
    ensures a / d <= b / d
  {
    assert a == (a / d) * d + a % d;
    assert b == (b / d) * d + b % d;
    if b / d < a / d {
      MulMonotone(b / d + 1, a / d, d);
    }
  }

  lemma AbsScale(u: int, bound: int, m: int)
    requires Abs(u) <= bound && 0 <= m
    ensures Abs(u * m) <= bound * m
  {
    MulMonotone(u, bound, m);
    MulMonotone(-bound, u, m);
  }

  lemma {:induction false} PowBelowRay(x: int, k: nat)
    requires 0 <= x <= RAY
    ensures 0 <= Pow(x, k) <= Pow(RAY, k)
  {
    if k > 0 {
      PowBelowRay(x, k - 1);
      MulMonotone(0, Pow(x, k - 1), x);
      MulMonotone(x, RAY, Pow(x, k - 1));
      MulMonotone(Pow(x, k - 1), Pow(RAY, k - 1), RAY);
    }
  }

  /** One rounded product of two approximations, over plain integers: the errors add and
      the rounding contributes one more half unit. */
  lemma ProductError(x: int, y: int, z: int, a: int, b: int, p: int, q: int, i: int, j: int)
    requires 0 <= y <= RAY && p > 0 && q > 0 && i >= 1 && j >= 1
    requires 0 <= a <= RAY * p
    requires 2 * Abs(x * p - a) <= (i - 1) * p
    requires 2 * Abs(y * q - b) <= (j - 1) * q
    requires 2 * Abs(z * RAY - x * y) <= RAY
    ensures 2 * Abs(z * (RAY * (p * q)) - a * b) <= (i + j - 1) * (RAY * (p * q))
  {
    var pq := p * q;
    MulMonotone(1, p, q);
    // rounding
    AbsScale(2 * (z * RAY - x * y), RAY, pq);
    // error of x, carried by y
    MulMonotone(0, y, q);
    AbsScale(2 * (x * p - a), (i - 1) * p, y * q);
    MulMonotone(y, RAY, q);
    MulMonotone(0, i - 1, p);
    MulMonotone(y * q, RAY * q, (i - 1) * p);
    // error of y, carried by a
    AbsScale(2 * (y * q - b), (j - 1) * q, a);
    MulMonotone(0, j - 1, q);
    MulMonotone(a, RAY * p, (j - 1) * q);
    var t1, t2, t3 := 2 * (z * RAY - x * y) * pq, 2 * (x * p - a) * (y * q), 2 * (y * q - b) * a;
    var unit := RAY * pq;
    assert RAY * pq == unit;
    ScaleUnits(i, j, p, q);
    assert Abs(t1) <= unit && Abs(t2) <= (i - 1) * unit && Abs(t3) <= (j - 1) * unit;
    SplitProduct(x, y, z, a, b, p, q);
    assert 2 * (z * unit - a * b) == t1 + t2 + t3;
    assert unit + (i - 1) * unit + (j - 1) * unit == (i + j - 1) * unit;
  }

  lemma ScaleUnits(i: int, j: int, p: int, q: int)
    ensures (RAY * q) * ((i - 1) * p) == (i - 1) * (RAY * (p * q))
    ensures (RAY * p) * ((j - 1) * q) == (j - 1) * (RAY * (p * q))
  {
    assert (RAY * q) * ((i - 1) * p) == RAY * ((i - 1) * (p * q));
    assert (RAY * p) * ((j - 1) * q) == RAY * ((j - 1) * (p * q));
  }

  lemma SplitProduct(x: int, y: int, z: int, a: int, b: int, p: int, q: int)
    ensures 2 * (z * (RAY * (p * q)) - a * b)
            == 2 * (z * RAY - x * y) * (p * q) + 2 * (x * p - a) * (y * q) + 2 * (y * q - b) * a
  {
    var pq := p * q;
    assert (z * RAY - x * y) * pq == z * (RAY * pq) - (x * y) * pq;
    assert (x * p - a) * (y * q) == (x * y) * pq - a * (y * q);
    assert (y * q - b) * a == a * (y * q) - a * b;
  }

  lemma NearProduct(u: int, i: nat, v: int, j: nat, x: int)
    requires 0 <= x <= RAY && j >= 1
    requires NearPower(u, x, i) && NearPower(v, x, j)
    ensures NearPower(Rmul(u, v), x, i + j)
  {
    RmulBounds(u, v);
    RmulRange(u, v);
    if i == 0 {
      assert Rmul(RAY, v) == v;
    } else {
      PowPositive(RAY, i - 1);
      PowPositive(RAY, j - 1);
      PowBelowRay(x, i);
      ProductError(u, v, Rmul(u, v), Pow(x, i), Pow(x, j), Pow(RAY, i - 1), Pow(RAY, j - 1), i, j);
      PowAdd(x, i, j);
      PowAdd(RAY, i - 1, j - 1);
      assert Pow(RAY, i + j - 1) == RAY * Pow(RAY, i + j - 2);
    }
  }

  lemma {:induction false} RpowFromNear(base: int, x: int, p: nat, z: int, e: nat, n: nat)
    requires 0 <= base <= RAY && p >= 1
    requires NearPower(x, base, p) && NearPower(z, base, e)
    ensures NearPower(RpowFrom(x, z, n), base, e + 2 * p * n)
    decreases n
  {
    if n > 0 {
      NearProduct(x, p, x, p, base);
      var x' := Rmul(x, x);
      if n % 2 == 1 {
        NearProduct(z, e, x', 2 * p, base);
        RpowFromNear(base, x', 2 * p, Rmul(z, x'), e + 2 * p, n / 2);
        assert e + 2 * p + 2 * (2 * p) * (n / 2) == e + 2 * p * n by { HalfStep(p, n / 2); }
      } else {
        RpowFromNear(base, x', 2 * p, z, e, n / 2);
        assert e + 2 * (2 * p) * (n / 2) == e + 2 * p * n by { HalfStep(p, n / 2); }
      }
    }
  }

  lemma HalfStep(p: int, h: int)
    ensures 2 * (2 * p) * h == 2 * p * (2 * h)
    ensures 2 * p * (2 * h + 1) == 2 * p * (2 * h) + 2 * p
  {
  }

  /** However the loop's roundings fall, the ray power of a base in [0, 1] stays in [0, 1]
      and is within (n - 1)/2 units of the exact power. */
  lemma RpowNear(x: int, n: nat)
    requires 0 <= x <= RAY
    ensures NearPower(Rpow(x, n), x, n)
  {
    assert Pow(x, 1) == x * Pow(x, 0);
    assert NearPower(x, x, 1);
    assert NearPower(RAY, x, 0);
    var e := n % 2;
    RpowFromNear(x, x, 1, if e == 1 then x else RAY, e, n / 2);
    assert e + 2 * 1 * (n / 2) == n;
  }

  lemma {:induction false} RpowFromMonotone(x: int, z: int, u: int, w: int, n: nat)
    requires 0 <= x <= u <= RAY && 0 <= z <= w <= RAY
    ensures 0 <= RpowFrom(x, z, n) <= RpowFrom(u, w, n)
    decreases n
  {
    if n > 0 {
      RmulRange(x, x);
      RmulRange(u, u);
      RmulMonotone(x, x, u, u);
      var x', u' := Rmul(x, x), Rmul(u, u);
      RmulRange(z, x');
      RmulRange(w, u');
      RmulMonotone(z, x', w, u');
      RpowFromMonotone(x', if n % 2 == 1 then Rmul(z, x') else z,
                       u', if n % 2 == 1 then Rmul(w, u') else w, n / 2);
    }
  }

  // ---------------------------------------------------------- terminal ask

  datatype AskInput = AskInput(
    encoding: Encoding,
    startingPrice: int,
    sellAmount: int,
    sellDecimals: int,
    wantDecimals: int,
    decayBps: int,
    stepSeconds: int,
    auctionSeconds: int)
  {
    predicate Valid() {
      && !encoding.Unsupported?
      && startingPrice > 0 && sellAmount > 0
      && 0 <= sellDecimals <= 18 && 0 <= wantDecimals <= 18
      && 0 < decayBps < BPS
      && stepSeconds > 0 && auctionSeconds > 0
    }

    function SellScaler(): int
      requires 0 <= sellDecimals <= 18
    {
      Pow(10, 18 - sellDecimals)
    }

    function WantScaler(): int
      requires 0 <= wantDecimals <= 18
    {
      Pow(10, 18 - wantDecimals)
    }

    /** The lot in 18-decimal units. */
    function Available(): int
      requires 0 <= sellDecimals <= 18
    {
      sellAmount * SellScaler()
    }

    /** The starting price of the whole lot, in wad units of want. */
    function StartWad(): int {
      if encoding.WholeWant? then startingPrice * WAD else startingPrice
    }

    function Multiplier(): int {
      RAY - decayBps * RAY_PER_BPS
    }
  }

  function TerminalPrice(input: AskInput): int
    requires input.Valid() && input.Available() > 0
  {
    var initial := Wdiv(input.StartWad(), input.Available()).value;
    Rmul(initial, Rpow(input.Multiplier(), input.auctionSeconds / input.stepSeconds))
  }

  function LatentTerminalAsk(input: AskInput): (r: Result<int, PriceError>)
    ensures r.Ok? <==> input.Valid()
  {
    if input.startingPrice <= 0 then Err(NonPositivePrice)
    else if input.sellAmount <= 0 then Err(NonPositiveSellAmount)
    else if !(0 <= input.sellDecimals <= 18) || !(0 <= input.wantDecimals <= 18) then Err(DecimalsOutOfRange)
    else if !(0 < input.decayBps < BPS) then Err(DecayOutOfRange)
    else if input.stepSeconds <= 0 || input.auctionSeconds <= 0 then Err(NonPositiveTiming)
    else if input.encoding.Unsupported? then Err(UnsupportedEncoding)
    else
      ScalersPositive(input);
      Ok((input.sellAmount * input.SellScaler() * TerminalPrice(input)) / WAD / input.WantScaler())
  }

  lemma ScalersPositive(input: AskInput)
    requires input.Valid()
    ensures input.SellScaler() > 0 && input.WantScaler() > 0 && input.Available() > 0
    ensures 0 < input.Multiplier() < RAY
  {
    PowPositive(10, 18 - input.sellDecimals);
    PowPositive(10, 18 - input.wantDecimals);
    MulMonotone(1, input.sellAmount, input.SellScaler());
  }

  lemma WdivBounds(x: int, y: int)
    requires y > 0 && x >= 0
    ensures 0 <= Wdiv(x, y).value
    ensures 2 * Abs(Wdiv(x, y).value * y - x * WAD) <= y
  {
    var m := x * WAD + y / 2;
    assert m == (m / y) * y + m % y;
    if m / y < 0 {
      MulMonotone(m / y, -1, y);
    }
  }

  /** What the terminal ask is worth, measured against the wad starting price: the ask
      scaled back up never exceeds it by more than half an initial price unit per lot unit. */
  lemma TerminalAskBelowStart(input: AskInput)
    requires input.Valid()
    ensures var ask := LatentTerminalAsk(input).value;
            && 0 <= ask
            && 2 * WAD * ask * input.WantScaler() <= 2 * WAD * input.StartWad() + input.Available()
  {
    ScalersPositive(input);
    var avail, start := input.Available(), input.StartWad();
    var initial := Wdiv(start, avail).value;
    var n := input.auctionSeconds / input.stepSeconds;
    WdivBounds(start, avail);
    RpowNear(input.Multiplier(), n);
    RmulRange(initial, Rpow(input.Multiplier(), n));
    var terminal := TerminalPrice(input);
    MulMonotone(terminal, initial, avail);
    MulMonotone(0, terminal, avail);
    var ask, ws := LatentTerminalAsk(input).value, input.WantScaler();
    FloorTwice(avail * terminal, WAD, ws);
    assert ask == (avail * terminal) / WAD / ws;
    assert 2 * WAD * ask * ws == 2 * (ask * (WAD * ws)) by { Assoc(ask, ws); }
  }

  lemma Assoc(a: int, w: int)
    ensures 2 * WAD * a * w == 2 * (a * (WAD * w))
  {
    assert WAD * a * w == a * (WAD * w);
  }

  lemma FloorTwice(m: int, d: int, e: int)
    requires 0 <= m && d > 0 && e > 0
    ensures 0 <= m / d / e && (m / d / e) * (d * e) <= m
  {
    var q := m / d;
    assert m == q * d + m % d;
    assert q == (q / e) * e + q % e;
    if q < 0 { MulMonotone(q, -1, d); }
    if q / e < 0 { MulMonotone(q / e, -1, e); }
    MulMonotone((q / e) * e, q, d);
    assert ((q / e) * e) * d == (q / e) * (d * e);
  }

  /** The terminal price follows the exact geometric decay of the initial price: half a
      unit for the last product, plus the power's own error carried by the initial price. */
  lemma TerminalPriceNearDecay(input: AskInput, n: nat)
    requires input.Valid() && input.Available() > 0
    requires n == input.auctionSeconds / input.stepSeconds && n >= 1
    ensures var initial := Wdiv(input.StartWad(), input.Available()).value;
            2 * Abs(TerminalPrice(input) * Pow(RAY, n) - initial * Pow(input.Multiplier(), n))
            <= Pow(RAY, n) + initial * ((n - 1) * Pow(RAY, n - 1))
  {
    ScalersPositive(input);
    var m, initial := input.Multiplier(), Wdiv(input.StartWad(), input.Available()).value;
    WdivBounds(input.StartWad(), input.Available());
    RpowNear(m, n);
    PowPositive(RAY, n - 1);
    RmulBounds(initial, Rpow(m, n));
    DecayError(TerminalPrice(input), initial, Rpow(m, n), Pow(m, n), Pow(RAY, n - 1), n);
  }

  lemma DecayError(t: int, i: int, z: int, e: int, p: int, n: nat)
    requires i >= 0 && p > 0 && n >= 1
    requires 2 * Abs(t * RAY - i * z) <= RAY
    requires 2 * Abs(z * p - e) <= (n - 1) * p
    ensures 2 * Abs(t * (RAY * p) - i * e) <= RAY * p + i * ((n - 1) * p)
  {
    var u, w := t * RAY - i * z, z * p - e;
    AbsScale(2 * u, RAY, p);
    AbsScale(2 * w, (n - 1) * p, i);
    Twice(u, p);
    Twice(w, i);
    Distribute(t, i, z, p);
    assert w * i == i * (z * p) - i * e;
    Commute((n - 1) * p, i);
  }

  lemma Twice(u: int, m: int)
    ensures (2 * u) * m == 2 * (u * m)
  {
  }

  lemma Commute(u: int, m: int)
    ensures u * m == m * u
  {
  }

  lemma Distribute(t: int, i: int, z: int, p: int)
    ensures (t * RAY - i * z) * p == t * (RAY * p) - i * (z * p)
  {
    assert (t * RAY) * p == t * (RAY * p);
    assert (i * z) * p == i * (z * p);
  }

  /** A dearer start never lowers the terminal ask, and a steeper decay never raises it. */
  lemma TerminalAskMonotone(low: AskInput, high: AskInput)
    requires low.Valid() && high.Valid()
    requires low == high.(startingPrice := low.startingPrice, decayBps := low.decayBps)
    requires low.startingPrice <= high.startingPrice
    requires low.decayBps >= high.decayBps
    ensures LatentTerminalAsk(low).value <= LatentTerminalAsk(high).value
  {
    ScalersPositive(low);
    ScalersPositive(high);
    var avail, n := low.Available(), low.auctionSeconds / low.stepSeconds;
    MulMonotone(low.StartWad(), high.StartWad(), WAD);
    DivMonotone(low.StartWad() * WAD + avail / 2, high.StartWad() * WAD + avail / 2, avail);
    var i1, i2 := Wdiv(low.StartWad(), avail).value, Wdiv(high.StartWad(), avail).value;
    assert i1 <= i2;
    WdivBounds(low.StartWad(), avail);
    var m1, m2 := low.Multiplier(), high.Multiplier();
    RpowFromMonotone(m1, if n % 2 == 1 then m1 else RAY, m2, if n % 2 == 1 then m2 else RAY, n / 2);
    RmulMonotone(i1, Rpow(m1, n), i2, Rpow(m2, n));
    var t1, t2 := TerminalPrice(low), TerminalPrice(high);
    MulMonotone(t1, t2, avail);
    DivMonotone(avail * t1, avail * t2, WAD);
    DivMonotone((avail * t1) / WAD, (avail * t2) / WAD, low.WantScaler());
  }
}
