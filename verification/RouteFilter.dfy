/**
  The detector's linear fee estimate against routes through any two venues the scanner
  trades on, concentrated pools included.  An Orca pool has its own fee; the detector
  always subtracts 25 bps for it, and so can hide a route when the real fee is lower.
 */
module RouteFilter {
  import opened MachineInts
  import opened Wrappers
  import opened Amm
  import opened AmmMachine
  import opened Types
  import opened Prices
  import opened FeeFilter
  import opened Quoter
  import Costs = CostModel
  import CL = ConcentratedLiquidity

  /** A SOL/token venue: a constant-product one, or a concentrated pool at its current price. */
  datatype AnyVenue =
    | Reserves(venue: Venue)
    | Ticks(pool: Dex, sqrtPrice: U128, liquidity: U128, feeRate: U16, solFirst: bool)
  {
    predicate Valid() {
      match this
      case Reserves(venue) => venue.Valid()
      case Ticks(pool, sqrtPrice, _, _, _) => (pool.RaydiumClmm? || pool.Orca?) && 0 < sqrtPrice
    }

    function Dex(): Dex {
      match this
      case Reserves(venue) => venue.dex
      case Ticks(pool, _, _, _, _) => pool
    }

    /** The fee a concentrated pool is quoted with. */
    function TickFeeBps(): (fee: real)
      requires Ticks?
      ensures 0.0 <= fee <= 10_000.0
    {
      if pool.Orca? then WhirlpoolFeeBps(feeRate) else 25.0
    }

    /** SOL in, tokens out. */
    function Buy(lamports: U64): U64
      requires Valid()
    {
      match this
      case Reserves(venue) => venue.Buy(lamports)
      case Ticks(_, sqrtPrice, liquidity, _, solFirst) =>
        CL.WhirlpoolSwapOutput(sqrtPrice, liquidity, lamports, TickFeeBps(), solFirst)
    }

    /** Tokens in, SOL out. */
    function Sell(tokens: U64): U64
      requires Valid()
    {
      match this
      case Reserves(venue) => venue.Sell(tokens)
      case Ticks(_, sqrtPrice, liquidity, _, solFirst) =>
        CL.WhirlpoolSwapOutput(sqrtPrice, liquidity, tokens, TickFeeBps(), !solFirst)
    }

    /** The price the feeds report. */
    function PriceUsd(tokenDecimals: nat, solUsd: real): real
      requires Valid()
    {
      match this
      case Reserves(venue) => venue.PriceUsd(tokenDecimals, solUsd)
      case Ticks(_, sqrtPrice, _, _, solFirst) =>
        var price := if solFirst then WhirlpoolPrice(sqrtPrice, SOL_DECIMALS, tokenDecimals)
                     else WhirlpoolPrice(sqrtPrice, tokenDecimals, SOL_DECIMALS);
        OfBase(price, !solFirst) * solUsd
    }

    /** Lamports per base unit of the token. */
    function Ratio(): (r: real)
      requires Valid()
      ensures r > 0.0
    {
      match this
      case Reserves(venue) => venue.Ratio()
      case Ticks(_, sqrtPrice, _, _, solFirst) =>
        CL.PricePositive(sqrtPrice);
        if solFirst then 1.0 / CL.PriceOf(sqrtPrice) else CL.PriceOf(sqrtPrice)
    }

    /** The detector's fee for one leg. */
    function Fee(): (fee: nat)
      requires Valid()
      ensures fee as real == Dex().FeeBps()
    {
      if Dex().PumpFun? then 100 else 25
    }

    /** The part of an amount a leg leaves, rounding aside. */
    function Keep(): (keep: real)
      requires Valid()
      ensures 0.0 < keep <= 1.0
    {
      match this
      case Reserves(venue) => if venue.dex.PumpFun? then 0.99 else 0.9975
      case Ticks(_, _, _, _, _) => (1.0 - TickFeeBps() / 10_000.0) * 0.999
    }
  }

  function Spread(from: AnyVenue, to: AnyVenue, tokenDecimals: nat, solUsd: real): Bps
    requires from.Valid() && to.Valid()
  {
    NetSpreadBps(from.Dex(), from.PriceUsd(tokenDecimals, solUsd), to.Dex(), to.PriceUsd(tokenDecimals, solUsd))
  }

  predicate Flagged(from: AnyVenue, to: AnyVenue, tokenDecimals: nat, solUsd: real)
    requires from.Valid() && to.Valid()
  {
    var s := Spread(from, to, tokenDecimals, solUsd); s.Infinite? || s.bps > 0.0
  }

  predicate DecimalsMatch(from: AnyVenue, to: AnyVenue, tokenDecimals: nat) {
    from.Dex().PumpFun? || to.Dex().PumpFun? ==> tokenDecimals == PUMPFUN_DECIMALS
  }

  // ----- the spread against the price ratios -----

  lemma Inverse(p: real, a: real, b: real)
    requires p > 0.0 && a > 0.0 && b > 0.0
    ensures p * (a / b) > 0.0 && 1.0 / (p * (a / b)) == 1.0 / p * (b / a)
  {
    var q, r, s := a / b, b / a, 1.0 / p;
    assert q * b == a && r * a == b && s * p == 1.0;
    assert q > 0.0;
    assert p * q > 0.0;
    assert (q * r) * a == q * b;
    assert q * r == 1.0;
    assert (s * r) * (p * q) == (s * p) * (q * r);
  }

  lemma TickPrice(v: AnyVenue, tokenDecimals: nat, solUsd: real)
    requires v.Valid() && v.Ticks?
    ensures v.PriceUsd(tokenDecimals, solUsd) == v.Ratio() * Scale(tokenDecimals, solUsd)
  {
    var token, sol, price := Pow10(tokenDecimals), Pow10(SOL_DECIMALS), CL.PriceOf(v.sqrtPrice);
    CL.PricePositive(v.sqrtPrice);
    if v.solFirst {
      Inverse(price, sol, token);
    }
    Regroup(v.Ratio(), token / sol, solUsd);
  }

  /** Every venue's price is its ratio times one common scale. */
  lemma AnyPriceIsScaledRatio(v: AnyVenue, tokenDecimals: nat, solUsd: real)
    requires v.Valid() && (v.Dex().PumpFun? ==> tokenDecimals == PUMPFUN_DECIMALS)
    ensures v.PriceUsd(tokenDecimals, solUsd) == v.Ratio() * Scale(tokenDecimals, solUsd)
  {
    if v.Ticks? {
      TickPrice(v, tokenDecimals, solUsd);
    } else {
      PriceIsScaledRatio(v.venue, tokenDecimals, solUsd);
    }
  }

  /** The factor by which prices must differ for a positive net spread. */
  function FeeFactor(from: AnyVenue, to: AnyVenue): real
    requires from.Valid() && to.Valid()
  {
    (10_000.0 + (from.Fee() + to.Fee()) as real) / 10_000.0
  }

  /** The net spread is positive exactly when the price ratio exceeds the fee factor. */
  lemma FlaggedIff(from: AnyVenue, to: AnyVenue, tokenDecimals: nat, solUsd: real)
    requires from.Valid() && to.Valid() && solUsd > 0.0 && DecimalsMatch(from, to, tokenDecimals)
    ensures Spread(from, to, tokenDecimals, solUsd).Finite?
    ensures Flagged(from, to, tokenDecimals, solUsd) <==> FeeFactor(from, to) * from.Ratio() < to.Ratio()
  {
    AnyPriceIsScaledRatio(from, tokenDecimals, solUsd);
    AnyPriceIsScaledRatio(to, tokenDecimals, solUsd);
    FlaggedAtScale(from, to, Scale(tokenDecimals, solUsd),
                   from.PriceUsd(tokenDecimals, solUsd), to.PriceUsd(tokenDecimals, solUsd));
  }

  lemma FlaggedAtScale(from: AnyVenue, to: AnyVenue, scale: real, p1: real, p2: real)
    requires from.Valid() && to.Valid() && scale > 0.0
    requires p1 == from.Ratio() * scale && p2 == to.Ratio() * scale
    ensures var s := NetSpreadBps(from.Dex(), p1, to.Dex(), p2);
            s.Finite? && (s.bps > 0.0 <==> FeeFactor(from, to) * from.Ratio() < to.Ratio())
  {
    NetSpreadOfRatios(
      from.Dex(), from.Ratio(), to.Dex(), to.Ratio(), scale, p1, p2, (from.Fee() + to.Fee()) as real);
  }

  // ----- what a leg can pay -----

  /** Tokens bought, valued at the venue's price, are at most what was credited. */
  predicate BoughtWithin(tokens: nat, ratio: real, credit: real) {
    tokens as real * ratio <= credit
  }

  predicate PaidWithin(out: nat, kept: real, ratio: real) {
    out as real <= kept * ratio
  }

  /** A sale pays at most the tokens' value at the venue's price, less the fee. */
  predicate SoldWithin(gross: nat, tokens: nat, keep: real, ratio: real) {
    PaidWithin(gross, tokens as real * keep, ratio)
  }

  /** A route's gross return is within the fees of what was credited. */
  predicate GrossWithin(gross: nat, keep: real, m: real, credit: real) {
    gross as real <= keep * m * credit
  }

  /** Fees and holdbacks of two legs together outweigh the estimate m. */
  predicate Outweighs(k1: real, k2: real, m: real) {
    k1 * k2 * m < 1.0
  }

  /** What counts of a buyer's lamports. */
  function Credit(curve: bool, keep: real, lamports: nat): real {
    if curve then PumpFunNet(lamports) as real else lamports as real * keep
  }

  /** What a sale pays before PumpFun takes its fee from it. */
  function Gross(v: AnyVenue, tokens: U64): U64
    requires v.Valid()
  {
    if v.Reserves? then GrossSell(v.venue, tokens) else v.Sell(tokens)
  }

  function GrossKeep(curve: bool, keep: real): real {
    if curve then 1.0 else keep
  }

  lemma DividedBound(out: nat, x: nat, y: nat, credit: nat)
    requires 0 < y && out * (BPS * x) <= credit * y
    ensures out as real * (x as real / y as real) <= credit as real / 10_000.0
  {
    var r := x as real / y as real;
    assert r * y as real == x as real;
    RealProduct(out, BPS * x);
    RealProduct(credit, y);
    RealProduct(BPS, x);
    assert (out as real * r) * 10_000.0 * y as real <= credit as real * y as real;
  }

  lemma SellDivided(gross: nat, token: nat, sol: nat, tokens: nat, f: nat, keep: real)
    requires 0 < token && gross * (BPS * token) <= tokens * f * sol && keep == f as real / 10_000.0
    ensures SoldWithin(gross, tokens, keep, sol as real / token as real)
  {
    var r := sol as real / token as real;
    assert r * token as real == sol as real;
    RealProduct(gross, BPS * token);
    RealProduct(BPS, token);
    RealProduct(tokens * f, sol);
    RealProduct(tokens, f);
    assert tokens as real * keep * 10_000.0 == tokens as real * f as real;
    assert gross as real * 10_000.0 * token as real <= (tokens as real * keep * r) * 10_000.0 * token as real;
  }

  /** One leg of a concentrated pool, in either direction; `direct` says that it multiplies by the price. */
  lemma TickLegAt(price: real, a: U64, feeBps: real, direct: bool, out: nat)
    requires price > 0.0 && 0.0 <= feeBps <= 10_000.0
    requires out == CL.OutputAtPrice(price, a, feeBps, direct)
    ensures direct ==>
              && BoughtWithin(out, 1.0 / price, CL.Kept(a as real, feeBps))
              && PaidWithin(out, CL.Kept(a as real, feeBps), price)
    ensures !direct ==>
              && BoughtWithin(out, price, CL.Kept(a as real, feeBps))
              && PaidWithin(out, CL.Kept(a as real, feeBps), 1.0 / price)
  {
    CL.KeptBound(price, a, feeBps, direct);
    MoveFactor(out as real, CL.Kept(a as real, feeBps), price);
  }

  lemma MoveFactor(out: real, kept: real, price: real)
    requires price > 0.0
    ensures out <= kept * price ==> out * (1.0 / price) <= kept
    ensures out * price <= kept ==> out <= kept * (1.0 / price)
  {
    var inverse := 1.0 / price;
    assert inverse * price == 1.0;
    assert inverse > 0.0;
    if out <= kept * price {
      CL.ScaleUp(out, kept * price, inverse);
      assert kept * price * inverse == kept * (inverse * price);
    }
    if out * price <= kept {
      CL.ScaleUp(out * price, kept, inverse);
      assert out * price * inverse == out * (inverse * price);
    }
  }

  lemma KeptIs(a: real, feeBps: real, keep: real)
    requires keep == (1.0 - feeBps / 10_000.0) * 0.999
    ensures CL.Kept(a, feeBps) == a * keep
  {
    Regroup(a, 1.0 - feeBps / 10_000.0, 0.999);
  }

  lemma NothingIsFine(a: real, keep: real, ratio: real)
    requires 0.0 <= a && 0.0 < keep && 0.0 < ratio
    ensures 0.0 <= a * keep && 0.0 <= a * keep * ratio
  {
  }

  /** The same for a whole quote, which may also be empty. */
  lemma TickQuote(
    sqrtPrice: U128, liquidity: U128, a: U64, feeBps: real, direct: bool, price: real, kept: real, out: U64)
    requires 0 < sqrtPrice && 0.0 <= feeBps <= 10_000.0
    requires price == CL.PriceOf(sqrtPrice) && price > 0.0 && kept == CL.Kept(a as real, feeBps) && 0.0 <= kept
    requires out == CL.WhirlpoolSwapOutput(sqrtPrice, liquidity, a, feeBps, direct)
    ensures direct ==> BoughtWithin(out, 1.0 / price, kept) && PaidWithin(out, kept, price)
    ensures !direct ==> BoughtWithin(out, price, kept) && PaidWithin(out, kept, 1.0 / price)
  {
    if liquidity == 0 || a == 0 {
      EmptyQuote(kept, price);
    } else {
      TickLegAt(price, a, feeBps, direct, out);
    }
  }

  lemma EmptyQuote(kept: real, price: real)
    requires 0.0 <= kept && price > 0.0
    ensures BoughtWithin(0, 1.0 / price, kept) && BoughtWithin(0, price, kept)
    ensures 0.0 <= kept * price && 0.0 <= kept * (1.0 / price)
  {
    assert 1.0 / price * price == 1.0;
    assert 1.0 / price > 0.0;
  }

  lemma TickBuy(v: AnyVenue, a: U64)
    requires v.Valid() && v.Ticks?
    ensures BoughtWithin(v.Buy(a), v.Ratio(), a as real * v.Keep())
  {
    var price, kept := CL.PriceOf(v.sqrtPrice), CL.Kept(a as real, v.TickFeeBps());
    CL.PricePositive(v.sqrtPrice);
    KeptIs(a as real, v.TickFeeBps(), v.Keep());
    NothingIsFine(a as real, v.Keep(), 1.0);
    TickQuote(v.sqrtPrice, v.liquidity, a, v.TickFeeBps(), v.solFirst, price, kept, v.Buy(a));
  }

  lemma TickSell(v: AnyVenue, a: U64)
    requires v.Valid() && v.Ticks?
    ensures SoldWithin(v.Sell(a), a, v.Keep(), v.Ratio())
  {
    KeptIs(a as real, v.TickFeeBps(), v.Keep());
    NothingIsFine(a as real, v.Keep(), 1.0);
    SoldByPrice(v, a, a as real * v.Keep());
  }

  lemma SoldByPrice(v: AnyVenue, a: U64, kept: real)
    requires v.Valid() && v.Ticks? && kept == CL.Kept(a as real, v.TickFeeBps()) && 0.0 <= kept
    ensures PaidWithin(v.Sell(a), kept, v.Ratio())
  {
    var price := CL.PriceOf(v.sqrtPrice);
    CL.PricePositive(v.sqrtPrice);
    TickQuote(v.sqrtPrice, v.liquidity, a, v.TickFeeBps(), !v.solFirst, price, kept, v.Sell(a));
  }

  lemma ReserveBuy(v: Venue, a: U64, keep: real)
    requires v.Valid() && keep == (if v.dex.PumpFun? then 0.99 else 0.9975)
    ensures BoughtWithin(v.Buy(a), v.Ratio(), Credit(v.dex.PumpFun?, keep, a))
  {
    BuyBound(v, a);
    CreditedShare(v.dex, a, keep);
    BoughtFrom(v.Buy(a), v.sol, v.token, Credited(v.dex, a), Credit(v.dex.PumpFun?, keep, a));
  }

  lemma CreditedShare(dex: Dex, a: nat, keep: real)
    requires keep == (if dex.PumpFun? then 0.99 else 0.9975)
    ensures Credit(dex.PumpFun?, keep, a) == Credited(dex, a) as real / 10_000.0
  {
  }

  lemma BoughtFrom(out: nat, x: nat, y: nat, credited: nat, credit: real)
    requires 0 < y && out * (BPS * x) <= credited * y && credit == credited as real / 10_000.0
    ensures BoughtWithin(out, x as real / y as real, credit)
  {
    DividedBound(out, x, y, credited);
  }

  lemma ReserveSell(v: Venue, tokens: U64, keep: real)
    requires v.Valid() && keep == (if v.dex.PumpFun? then 1.0 else 0.9975)
    ensures SoldWithin(GrossSell(v, tokens), tokens, keep, v.Ratio())
  {
    var fee := if v.dex.PumpFun? then 0 else CP_FEE_BPS;
    LooseBound(v.token, v.sol, tokens, fee, GrossSell(v, tokens));
    SellDivided(GrossSell(v, tokens), v.token, v.sol, tokens, BPS - fee, keep);
  }

  lemma BuyWorth(v: AnyVenue, a: U64)
    requires v.Valid()
    ensures BoughtWithin(v.Buy(a), v.Ratio(), Credit(v.Dex().PumpFun?, v.Keep(), a))
  {
    if v.Ticks? {
      TickBuy(v, a);
    } else {
      ReserveBuy(v.venue, a, v.Keep());
    }
  }

  lemma SellWorth(v: AnyVenue, tokens: U64)
    requires v.Valid()
    ensures SoldWithin(Gross(v, tokens), tokens, GrossKeep(v.Dex().PumpFun?, v.Keep()), v.Ratio())
  {
    if v.Ticks? {
      TickSell(v, tokens);
    } else {
      ReserveSell(v.venue, tokens, GrossKeep(v.Dex().PumpFun?, v.Keep()));
    }
  }

  // ----- a route whose prices do not differ by the estimate -----

  lemma ChainWorth(gross: nat, t: nat, keep: real, m: real, r1: real, r2: real, credit: real)
    requires 0.0 < keep && 0.0 < m && !(m * r1 < r2)
    requires BoughtWithin(t, r1, credit) && SoldWithin(gross, t, keep, r2)
    ensures GrossWithin(gross, keep, m, credit)
  {
    var worth, k := t as real * r1, t as real * keep;
    assert 0.0 <= k;
    Ordered(r2, m * r1, k);
    assert k * (m * r1) == keep * m * worth;
    assert 0.0 < keep * m;
    Ordered(worth, credit, keep * m);
  }

  lemma Ordered(a: real, b: real, k: real)
    requires a <= b && 0.0 <= k
    ensures k * a <= k * b
  {
  }

  lemma PumpFunTakesAPercent(gross: nat, a: nat)
    requires a < PumpFunNet(gross)
    ensures 100 * a < 99 * gross
  {
  }

  lemma Shrinks(v: real, k: real)
    requires 0.0 <= v && k < 1.0
    ensures v * k <= v && (0.0 < v ==> v * k < v)
  {
    assert v * (1.0 - k) >= 0.0;
    if 0.0 < v {
      assert v * (1.0 - k) > 0.0;
    }
  }

  /** x is the return of `a` kept by two legs and lifted by the estimate; k their common factor. */
  lemma Combine(a: real, k1: real, k2: real, m: real, k: real, x: real)
    requires k == k1 * k2 * m && x == k2 * m * (a * k1)
    ensures x == a * k
  {
  }

  /** No curve in the route: rounding only helps. */
  lemma PlainRoute(a: nat, gross: nat, k1: real, k2: real, m: real, k: real, x: real)
    requires k == k1 * k2 * m && k < 1.0
    requires x == k2 * m * (a as real * k1) && gross as real <= x
    ensures gross <= a
  {
    Combine(a as real, k1, k2, m, k, x);
    AtMostAll(a, gross, k, x);
  }

  lemma AtMostWhole(v: real, k: real, product: real)
    requires 0.0 <= v && k < 1.0 && product == v * k
    ensures product <= v
  {
    Shrinks(v, k);
  }

  lemma AtMostAll(a: nat, gross: nat, k: real, x: real)
    requires k < 1.0 && x == a as real * k && gross as real <= x
    ensures gross <= a
  {
    AtMostWhole(a as real, k, x);
  }

  lemma BoughtOnCurve(a: nat, gross: nat, k2: real, m: real, k: real, x: real)
    requires k == 0.99 * k2 * m && k < 1.0 && 0.0 < k2 && 0.0 < m
    requires x == k2 * m * PumpFunNet(a) as real && gross as real <= x
    ensures gross <= a
  {
    var next, lift := a as real + 1.0, k2 * m;
    var top := lift * (next * 0.99);
    assert 0.0 < lift;
    assert PumpFunNet(a) as real <= next * 0.99;
    Lifted(PumpFunNet(a) as real, next * 0.99, lift, x, top);
    Combine(next, 0.99, k2, m, k, top);
    StrictlyBelow(next, k, top);
  }

  lemma Lifted(low: real, high: real, lift: real, x: real, top: real)
    requires low <= high && 0.0 <= lift && x == lift * low && top == lift * high
    ensures x <= top
  {
  }

  lemma StrictlyBelow(v: real, k: real, product: real)
    requires 0.0 < v && k < 1.0 && product == v * k
    ensures product < v
  {
    Shrinks(v, k);
  }

  lemma SoldOnCurve(a: nat, gross: nat, k1: real, m: real, k: real, x: real)
    requires k == k1 * 0.99 * m && k < 1.0
    requires x == 1.0 * m * (a as real * k1) && gross as real <= x
    ensures PumpFunNet(gross) <= a
  {
    Combine(a as real, k1, 0.99, m, k, 0.99 * m * (a as real * k1));
    Percent(a, gross, k, x);
  }

  lemma Percent(a: nat, gross: nat, k: real, x: real)
    requires k < 1.0 && 0.99 * x == a as real * k && gross as real <= x
    ensures PumpFunNet(gross) <= a
  {
    AtMostWhole(a as real, k, 0.99 * x);
    assert 99.0 * gross as real <= 100.0 * a as real;
    assert (99 * gross) as real == 99.0 * gross as real && (100 * a) as real == 100.0 * a as real;
    if a < PumpFunNet(gross) {
      PumpFunTakesAPercent(gross, a);
    }
  }

  // ----- soundness -----

  /** The two legs' fees and holdbacks together outweigh the detector's estimate. */
  predicate FeesCoverEstimate(from: AnyVenue, to: AnyVenue)
    requires from.Valid() && to.Valid()
  {
    Outweighs(from.Keep(), to.Keep(), FeeFactor(from, to))
  }

  lemma UnflaggedGross(from: AnyVenue, to: AnyVenue, a: U64)
    requires from.Valid() && to.Valid() && !(FeeFactor(from, to) * from.Ratio() < to.Ratio())
    ensures GrossWithin(Gross(to, from.Buy(a)), GrossKeep(to.Dex().PumpFun?, to.Keep()), FeeFactor(from, to),
                        Credit(from.Dex().PumpFun?, from.Keep(), a))
  {
    BuyWorth(from, a);
    SellWorth(to, from.Buy(a));
    ChainWorth(Gross(to, from.Buy(a)), from.Buy(a), GrossKeep(to.Dex().PumpFun?, to.Keep()), FeeFactor(from, to),
               from.Ratio(), to.Ratio(), Credit(from.Dex().PumpFun?, from.Keep(), a));
  }

  /** The three kinds of route, on numbers. */
  lemma RouteLoses(a: nat, gross: nat, k1: real, k2: real, m: real, onCurve: bool, toCurve: bool)
    requires GrossWithin(gross, GrossKeep(toCurve, k2), m, Credit(onCurve, k1, a)) && Outweighs(k1, k2, m)
    requires !(onCurve && toCurve) && 0.0 < k2 && 0.0 < m
    requires (onCurve ==> k1 == 0.99) && (toCurve ==> k2 == 0.99)
    ensures (if toCurve then PumpFunNet(gross) else gross) <= a
  {
    var k, x := k1 * k2 * m, GrossKeep(toCurve, k2) * m * Credit(onCurve, k1, a);
    if onCurve {
      BoughtOnCurve(a, gross, k2, m, k, x);
    } else if toCurve {
      SoldOnCurve(a, gross, k1, m, k, x);
    } else {
      PlainRoute(a, gross, k1, k2, m, k, x);
    }
  }

  lemma SellIsNetOfGross(v: AnyVenue, tokens: U64)
    requires v.Valid()
    ensures v.Sell(tokens) == if v.Dex().PumpFun? then PumpFunNet(Gross(v, tokens)) else Gross(v, tokens)
  {
  }

  lemma UnflaggedLoses(from: AnyVenue, to: AnyVenue, a: U64)
    requires from.Valid() && to.Valid() && FeesCoverEstimate(from, to)
    requires !(from.Dex().PumpFun? && to.Dex().PumpFun?)
    requires !(FeeFactor(from, to) * from.Ratio() < to.Ratio())
    ensures to.Sell(from.Buy(a)) <= a
  {
    UnflaggedGross(from, to, a);
    RouteLoses(a, Gross(to, from.Buy(a)), from.Keep(), to.Keep(), FeeFactor(from, to),
               from.Dex().PumpFun?, to.Dex().PumpFun?);
    SellIsNetOfGross(to, from.Buy(a));
  }

  /**
    A route that returns more than it took is flagged, through any two kinds of
    venue, when the fees of its legs cover the detector's estimate (and, between two
    curves, rounding hides nothing).
   */
  lemma FilterIsSoundOnAllVenues(from: AnyVenue, to: AnyVenue, a: U64, tokenDecimals: nat, solUsd: real)
    requires from.Valid() && to.Valid() && solUsd > 0.0 && DecimalsMatch(from, to, tokenDecimals)
    requires FeesCoverEstimate(from, to)
    requires from.Dex().PumpFun? && to.Dex().PumpFun? ==> !RoundingHidesProfit(a)
    requires a < to.Sell(from.Buy(a))
    ensures Flagged(from, to, tokenDecimals, solUsd)
  {
    if from.Dex().PumpFun? && to.Dex().PumpFun? {
      FilterIsSound(from.venue, to.venue, a, tokenDecimals, solUsd);
    } else {
      FlaggedIff(from, to, tokenDecimals, solUsd);
      if !(FeeFactor(from, to) * from.Ratio() < to.Ratio()) {
        UnflaggedLoses(from, to, a);
      }
    }
  }
}
