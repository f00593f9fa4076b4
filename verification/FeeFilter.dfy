/**
  The detector subtracts a linear fee estimate from the price difference; the
  pools charge multiplicative, rounded fees.  This module proves that a route
  with real gross profit always keeps a strictly positive estimated spread, and
  exactly where rounding breaks that.
 */
module FeeFilter {
  import opened MachineInts
  import opened Wrappers
  import opened Amm
  import opened AmmMachine
  import opened Types
  import opened Prices

  /** A SOL/token venue priced by constant product. */
  datatype Venue = Venue(dex: Dex, sol: U64, token: U64)
  {
    predicate Valid() {
      (dex.Raydium? || dex.PumpSwap? || dex.PumpFun?) && 0 < sol && 0 < token
    }

    function Curve(): PumpFunState {
      PumpFunState(token, sol, 0, 0, false)
    }

    /** SOL in, tokens out. */
    function Buy(lamports: U64): U64
      requires Valid()
    {
      match dex
      case Raydium => RaydiumSwapOutput(sol, token, lamports)
      case PumpSwap => PumpSwapSwapOutput(sol, token, lamports)
      case PumpFun => PumpFunBuyOutput(Curve(), lamports)
    }

    /** Tokens in, SOL out. */
    function Sell(tokens: U64): U64
      requires Valid()
    {
      match dex
      case Raydium => RaydiumSwapOutput(token, sol, tokens)
      case PumpSwap => PumpSwapSwapOutput(token, sol, tokens)
      case PumpFun => PumpFunSellOutput(Curve(), tokens)
    }

    /** The price the feeds report: SOL per token, times the SOL price. */
    function PriceUsd(tokenDecimals: nat, solUsd: real): real
      requires Valid()
    {
      PriceInSol(tokenDecimals).value * solUsd
    }

    function PriceInSol(tokenDecimals: nat): (price: Option<real>)
      requires Valid()
      ensures price.Some?
    {
      if dex.PumpFun? then PumpFunPriceInSol(Curve())
      else RaydiumPriceFromVaults(token, sol, tokenDecimals, SOL_DECIMALS)
    }

    function Ratio(): (r: real)
      requires Valid()
      ensures r > 0.0
    {
      sol as real / token as real
    }

    /** The detector's fee for one leg, as an integer. */
    function Fee(): (fee: nat)
      ensures fee as real == dex.FeeBps() || !Valid()
    {
      if dex.PumpFun? then 100 else 25
    }
  }

  function Spread(from: Venue, to: Venue, tokenDecimals: nat, solUsd: real): Bps
    requires from.Valid() && to.Valid()
  {
    NetSpreadBps(from.dex, from.PriceUsd(tokenDecimals, solUsd), to.dex, to.PriceUsd(tokenDecimals, solUsd))
  }

  /** Net spread > 0, cross-multiplied: no division and no decimals. */
  predicate PricesClearFees(from: Venue, to: Venue) {
    (BPS + from.Fee() + to.Fee()) * (from.sol * to.token) < BPS * (to.sol * from.token)
  }

  // ----- the spread formula against the reserves -----

  lemma PriceOfReserves(sol: real, solUnit: real, token: real, tokenUnit: real)
    requires token > 0.0 && solUnit > 0.0 && tokenUnit > 0.0
    ensures PerUnit(sol, solUnit, token, tokenUnit) == sol / token * (tokenUnit / solUnit)
  {
    var whole := token / tokenUnit;
    assert whole * tokenUnit == token;
    assert whole > 0.0;
    var price := (sol / solUnit) / whole;
    assert price * whole == sol / solUnit;
    assert sol / solUnit * solUnit == sol;
    assert price * token * solUnit == sol * tokenUnit;
  }

  /** Lamports per base unit to dollars per token. */
  function Scale(tokenDecimals: nat, solUsd: real): (scale: real)
    ensures solUsd > 0.0 ==> scale > 0.0
  {
    var units := Pow10(tokenDecimals) / Pow10(SOL_DECIMALS);
    assert units > 0.0;
    units * solUsd
  }

  /** Both kinds of venue quote the vault price. */
  lemma PriceInSolIsVaultPrice(v: Venue, tokenDecimals: nat)
    requires v.Valid() && (v.dex.PumpFun? ==> tokenDecimals == PUMPFUN_DECIMALS)
    ensures v.PriceInSol(tokenDecimals) == RaydiumPriceFromVaults(v.token, v.sol, tokenDecimals, SOL_DECIMALS)
  {
    if v.dex.PumpFun? {
      CurveAndVaultPricesAgree(v.Curve());
    }
  }

  lemma VaultPriceIsScaledRatio(sol: U64, token: U64, tokenDecimals: nat, solDecimals: nat)
    requires 0 < token
    ensures var price := RaydiumPriceFromVaults(token, sol, tokenDecimals, solDecimals);
            price.Some? && price.value == sol as real / token as real * (Pow10(tokenDecimals) / Pow10(solDecimals))
  {
    var solUnit, tokenUnit := Pow10(solDecimals), Pow10(tokenDecimals);
    PriceOfReserves(sol as real, solUnit, token as real, tokenUnit);
    assert RaydiumPriceFromVaults(token, sol, tokenDecimals, solDecimals).value
        == PerUnit(sol as real, solUnit, token as real, tokenUnit);
  }

  /** Every venue price is its reserve ratio times one common scale. */
  lemma PriceIsScaledRatio(v: Venue, tokenDecimals: nat, solUsd: real)
    requires v.Valid() && (v.dex.PumpFun? ==> tokenDecimals == PUMPFUN_DECIMALS)
    ensures v.PriceUsd(tokenDecimals, solUsd) == v.Ratio() * Scale(tokenDecimals, solUsd)
  {
    PriceInSolIsVaultPrice(v, tokenDecimals);
    VaultPriceIsScaledRatio(v.sol, v.token, tokenDecimals, SOL_DECIMALS);
    Regroup(v.Ratio(), Pow10(tokenDecimals) / Pow10(SOL_DECIMALS), solUsd);
  }

  lemma RatioOrder(s1: real, t1: real, s2: real, t2: real, m: real)
    requires s1 > 0.0 && t1 > 0.0 && s2 > 0.0 && t2 > 0.0
    ensures m * (s1 / t1) < s2 / t2 <==> m * (s1 * t2) < s2 * t1
  {
    var r1, r2 := s1 / t1, s2 / t2;
    assert r1 * t1 == s1 && r2 * t2 == s2;
    var d := t1 * t2;
    assert d > 0.0;
    assert (m * r1) * d == m * ((r1 * t1) * t2);
    assert r2 * d == (r2 * t2) * t1;
    if m * r1 < r2 {
      assert (r2 - m * r1) * d > 0.0;
    } else {
      assert (m * r1 - r2) * d >= 0.0;
    }
  }

  lemma ScaledSpread(r1: real, r2: real, scale: real, fees: real)
    requires r1 > 0.0 && scale > 0.0
    ensures r1 * scale != 0.0
    ensures (r2 * scale - r1 * scale) / (r1 * scale) * 10_000.0 - fees > 0.0
       <==> (10_000.0 + fees) / 10_000.0 * r1 < r2
  {
    var b := r1 * scale;
    assert b > 0.0;
    var q := (r2 * scale - b) / b;
    assert q * b == (r2 - r1) * scale;
    assert (q * r1) * scale == (r2 - r1) * scale;
    assert q * r1 == r2 - r1;
  }

  /** The sign of the detector's spread depends on the reserves alone. */
  lemma SpreadSign(from: Venue, to: Venue, tokenDecimals: nat, solUsd: real)
    requires from.Valid() && to.Valid() && solUsd > 0.0
    requires from.dex.PumpFun? || to.dex.PumpFun? ==> tokenDecimals == PUMPFUN_DECIMALS
    ensures var s := Spread(from, to, tokenDecimals, solUsd);
            s.Finite? && (s.bps > 0.0 <==> PricesClearFees(from, to))
  {
    PriceIsScaledRatio(from, tokenDecimals, solUsd);
    PriceIsScaledRatio(to, tokenDecimals, solUsd);
    SpreadSignAt(from, to, Scale(tokenDecimals, solUsd),
                 from.PriceUsd(tokenDecimals, solUsd), to.PriceUsd(tokenDecimals, solUsd));
  }

  lemma SpreadSignAt(from: Venue, to: Venue, scale: real, p1: real, p2: real)
    requires from.Valid() && to.Valid() && scale > 0.0
    requires p1 == from.Ratio() * scale && p2 == to.Ratio() * scale
    ensures var s := NetSpreadBps(from.dex, p1, to.dex, p2);
            s.Finite? && (s.bps > 0.0 <==> PricesClearFees(from, to))
  {
    var fees := (from.Fee() + to.Fee()) as real;
    NetSpreadOfRatios(from.dex, from.Ratio(), to.dex, to.Ratio(), scale, p1, p2, fees);
    RatiosClearFees(from, to, (10_000.0 + fees) / 10_000.0);
  }

  lemma NetSpreadOfRatios(d1: Dex, r1: real, d2: Dex, r2: real, scale: real, p1: real, p2: real, fees: real)
    requires r1 > 0.0 && scale > 0.0 && p1 == r1 * scale && p2 == r2 * scale
    requires fees == d1.FeeBps() + d2.FeeBps()
    ensures var s := NetSpreadBps(d1, p1, d2, p2);
            s.Finite? && (s.bps > 0.0 <==> (10_000.0 + fees) / 10_000.0 * r1 < r2)
  {
    ScaledSpread(r1, r2, scale, fees);
  }

  lemma RatiosClearFees(from: Venue, to: Venue, m: real)
    requires from.Valid() && to.Valid() && m == (BPS + from.Fee() + to.Fee()) as real / 10_000.0
    ensures m * from.Ratio() < to.Ratio() <==> PricesClearFees(from, to)
  {
    RatioOrder(from.sol as real, from.token as real, to.sol as real, to.token as real, m);
    CrossMultiply(BPS + from.Fee() + to.Fee(), from.sol, to.token, to.sol, from.token, m);
  }

  lemma Regroup(a: real, b: real, c: real)
    ensures a * b * c == a * (b * c)
  {
  }

  lemma RealProduct(a: int, b: int)
    ensures a as real * b as real == (a * b) as real
  {
  }

  lemma CrossMultiply(k: nat, a: nat, b: nat, c: nat, d: nat, m: real)
    requires m == k as real / 10_000.0
    ensures m * (a as real * b as real) < c as real * d as real <==> k * (a * b) < BPS * (c * d)
  {
    RealProduct(a, b);
    RealProduct(c, d);
    RealProduct(k, a * b);
    RealProduct(BPS, c * d);
  }

  // ----- what a route can return -----

  /** Effective input of a buy leg, in units of 1 / BPS. */
  function Credited(dex: Dex, lamports: nat): nat {
    if dex.PumpFun? then PumpFunNet(lamports) * BPS else lamports * (BPS - CP_FEE_BPS)
  }

  /** Tokens bought, bounded by the marginal price of the credited input. */
  lemma BuyBound(v: Venue, a: U64)
    requires v.Valid()
    ensures v.Buy(a) * (BPS * v.sol) <= Credited(v.dex, a) * v.token
  {
    var fee, amount := if v.dex.PumpFun? then 0 else CP_FEE_BPS, if v.dex.PumpFun? then PumpFunNet(a) else a;
    assert Credited(v.dex, a) == amount * (BPS - fee);
    LooseBound(v.sol, v.token, amount, fee, v.Buy(a));
  }

  lemma LooseBound(x: U64, y: U64, a: U64, feeBps: nat, out: nat)
    requires feeBps <= BPS && out == ConstantProductSwap(x, y, a, feeBps)
    ensures out * (BPS * x) <= a * (BPS - feeBps) * y
    ensures 0 < out ==> out * (BPS * x) < a * (BPS - feeBps) * y
  {
    var f, best := BPS - feeBps, ExactSwap(x, y, a, feeBps);
    MachineSwapIsExactIff(x, y, a, feeBps);
    SwapBound(x, y, a, feeBps);
    NonNegative(a, f);
    NonNegative(a * f, y);
    if 0 < out {
      MulMonotone(out, best, x * BPS + a * f);
      Distribute(out, x * BPS, a * f);
      NonNegative(x, y);
      MulMonotone(1, out, a * f);
    }
  }

  /** Gross SOL taken from the selling venue, before PumpFun's fee on the output. */
  function GrossSell(v: Venue, tokens: U64): U64
    requires v.Valid()
  {
    ConstantProductSwap(v.token, v.sol, tokens, if v.dex.PumpFun? then 0 else CP_FEE_BPS)
  }

  function Keep(dex: Dex): nat {
    if dex.PumpFun? then BPS else BPS - CP_FEE_BPS
  }

  /** Both legs together: the gross return against the two reserve ratios. */
  lemma RouteBound(from: Venue, to: Venue, a: U64)
    requires from.Valid() && to.Valid()
    ensures var gross, v, u := GrossSell(to, from.Buy(a)), to.sol * from.token, from.sol * to.token;
            && gross * (BPS * BPS * u) <= Keep(to.dex) * Credited(from.dex, a) * v
            && (0 < gross ==> gross * (BPS * BPS * u) < Keep(to.dex) * Credited(from.dex, a) * v)
  {
    var t, k := from.Buy(a), Keep(to.dex);
    var gross, c := GrossSell(to, t), Credited(from.dex, a);
    BuyBound(from, a);
    LooseBound(to.token, to.sol, t, BPS - k, gross);
    Chain(gross, t, k, c, to.token, to.sol, from.sol, from.token);
  }

  lemma Chain(gross: nat, t: nat, k: nat, c: nat, tok2: nat, sol2: nat, sol1: nat, tok1: nat)
    requires 0 < sol1
    requires t * (BPS * sol1) <= c * tok1
    requires gross * (BPS * tok2) <= t * k * sol2
    ensures gross * (BPS * BPS * (sol1 * tok2)) <= k * c * (sol2 * tok1)
    ensures gross * (BPS * tok2) < t * k * sol2 ==> gross * (BPS * BPS * (sol1 * tok2)) < k * c * (sol2 * tok1)
  {
    var lhs, mid := gross * (BPS * tok2), t * k * sol2;
    assert lhs * (BPS * sol1) == gross * (BPS * BPS * (sol1 * tok2)) by {
      FourFactors(gross, BPS * tok2, BPS * sol1);
      assert (BPS * tok2) * (BPS * sol1) == BPS * BPS * (sol1 * tok2);
    }
    MulMonotone(lhs, mid, BPS * sol1);
    if lhs < mid {
      MulMonotone(lhs + 1, mid, BPS * sol1);
      Distribute(BPS * sol1, lhs, 1);
    }
    Regroup4(t, k, sol2, BPS * sol1);
    NonNegative(k, sol2);
    MulMonotone(t * (BPS * sol1), c * tok1, k * sol2);
    Regroup4(c, k, sol2, tok1);
    assert c * k * (sol2 * tok1) == k * c * (sol2 * tok1);
  }

  lemma FourFactors(a: int, b: int, c: int)
    ensures a * b * c == a * (b * c)
  {
  }

  lemma Regroup4(a: int, b: int, c: int, d: int)
    ensures a * b * c * d == a * d * (b * c)
    ensures a * b * c * d == a * b * (c * d)
  {
    FourFactors(a, b, c);
    FourFactors(a, b * c, d);
    FourFactors(a, d, b * c);
    FourFactors(a * b, c, d);
  }

  // ----- soundness of the filter -----

  /** The best gross SOL a PumpFun-to-PumpFun route can return while its estimated spread is not positive. */
  function BestUnflaggedGross(lamports: nat): nat {
    if lamports == 0 then 0 else (102 * PumpFunNet(lamports) - 1) / 100
  }

  /** That route can return more than it took without being flagged. */
  predicate RoundingHidesProfit(lamports: nat) {
    lamports < PumpFunNet(BestUnflaggedGross(lamports))
  }

  /** Gross return of an unflagged route, divided through by the reserves. */
  lemma UnflaggedReturn(gross: nat, k: nat, c: nat, u: nat, v: nat, fees: nat)
    requires 0 < gross && 0 < u
    requires gross * (BPS * BPS * u) < k * c * v
    requires BPS * v <= (BPS + fees) * u
    ensures gross * (BPS * BPS * BPS) < k * c * (BPS + fees)
  {
    var kc := k * c;
    NonNegative(k, c);
    MulMonotone(BPS * v, (BPS + fees) * u, kc);
    assert kc * (BPS * v) == BPS * (kc * v);
    assert kc * ((BPS + fees) * u) == kc * (BPS + fees) * u by {
      FourFactors(kc, BPS + fees, u);
    }
    assert gross * (BPS * BPS * u) == gross * (BPS * BPS) * u by {
      FourFactors(gross, BPS * BPS, u);
    }
    if kc * (BPS + fees) <= gross * (BPS * BPS * BPS) {
      MulMonotone(kc * (BPS + fees), gross * (BPS * BPS * BPS), u);
      assert false;
    }
  }

  /** The four fee combinations, as plain arithmetic on the amounts. */
  lemma FeesOutweighRounding(from: Dex, to: Dex, a: nat, gross: nat, fees: nat)
    requires fees == (if from.PumpFun? then 100 else 25) + (if to.PumpFun? then 100 else 25)
    requires from.PumpFun? && to.PumpFun? ==> !RoundingHidesProfit(a)
    requires gross * (BPS * BPS * BPS) < Keep(to) * Credited(from, a) * (BPS + fees)
    ensures (if to.PumpFun? then PumpFunNet(gross) else gross) <= a
  {
    if from.PumpFun? && to.PumpFun? {
      assert gross <= BestUnflaggedGross(a);
      assert PumpFunNet(gross) <= PumpFunNet(BestUnflaggedGross(a));
    }
  }

  /**
    A route with real gross profit has a strictly positive estimated spread:
    the detector's linear fee estimate hides none, except on routes between two
    bonding curves for the amounts where rounding removes the curves' fees.
   */
  lemma FilterIsSound(from: Venue, to: Venue, a: U64, tokenDecimals: nat, solUsd: real)
    requires from.Valid() && to.Valid() && solUsd > 0.0
    requires from.dex.PumpFun? || to.dex.PumpFun? ==> tokenDecimals == PUMPFUN_DECIMALS
    requires from.dex.PumpFun? && to.dex.PumpFun? ==> !RoundingHidesProfit(a)
    requires a < to.Sell(from.Buy(a))
    ensures var s := Spread(from, to, tokenDecimals, solUsd); s.Finite? && s.bps > 0.0
  {
    SpreadSign(from, to, tokenDecimals, solUsd);
    ProfitClearsFees(from, to, a);
  }

  /** The same on the reserves alone. */
  lemma ProfitClearsFees(from: Venue, to: Venue, a: U64)
    requires from.Valid() && to.Valid()
    requires from.dex.PumpFun? && to.dex.PumpFun? ==> !RoundingHidesProfit(a)
    requires a < to.Sell(from.Buy(a))
    ensures PricesClearFees(from, to)
  {
    if !PricesClearFees(from, to) {
      var gross, u, v := GrossSell(to, from.Buy(a)), from.sol * to.token, to.sol * from.token;
      var fees := from.Fee() + to.Fee();
      RouteBound(from, to, a);
      MulMonotone(1, from.sol, to.token);
      UnflaggedReturn(gross, Keep(to.dex), Credited(from.dex, a), u, v, fees);
      FeesOutweighRounding(from.dex, to.dex, a, gross, fees);
      assert false;
    }
  }

  /** Amounts the hidden routes can have: none is a multiple of 100, none reaches 3354 lamports. */
  lemma HiddenAmountsAreTiny(a: nat)
    requires RoundingHidesProfit(a)
    ensures a % 100 != 0 && a < 3_354
  {
    var gross, net := BestUnflaggedGross(a), PumpFunNet(a);
    assert 100 * gross <= 102 * net - 1;
    assert 100 * a < 99 * gross;
    assert 100 * net <= 99 * (a + 1);
  }

  /** Such amounts exist: 60 lamports buy and sell without any fee. */
  lemma SixtyLamportsHide()
    ensures RoundingHidesProfit(60)
  {
  }

  /** Two bonding curves at exactly the unflagged price ratio that return the most. */
  lemma HiddenRoute(a: U64) returns (from: Venue, to: Venue)
    requires RoundingHidesProfit(a)
    ensures from.Valid() && to.Valid() && from.dex.PumpFun? && to.dex.PumpFun?
    ensures !PricesClearFees(from, to)
    ensures a < to.Sell(from.Buy(a))
  {
    var net, gross := PumpFunNet(a), BestUnflaggedGross(a);
    var n := WitnessReserve(a, net, gross);
    from, to := Venue(PumpFun, 100 * n, 100 * n + net), Venue(PumpFun, 102 * n, 100 * n + net);
    EqualRatio(n, from.token);
    WitnessReturns(n, net, gross);
    HiddenReturn(from, to, a, net, gross);
  }

  lemma WitnessReserve(a: nat, net: nat, gross: nat) returns (n: nat)
    requires RoundingHidesProfit(a) && net == PumpFunNet(a) && gross == BestUnflaggedGross(a)
    ensures n == 2 * gross * net && 0 < n < 0x1_0000_0000
    ensures 0 < net <= 3_354 && 0 < gross && 100 * gross <= 102 * net - 1
  {
    HiddenAmountsAreTiny(a);
    WitnessBounds(a, net, gross);
    n := ProductBelow(gross, net);
  }

  lemma WitnessBounds(a: nat, net: nat, gross: nat)
    requires a < 3_354 && a < PumpFunNet(gross) && net == PumpFunNet(a) && gross == BestUnflaggedGross(a)
    ensures 0 < net <= 3_354 && 0 < gross <= 3_468 && 100 * gross <= 102 * net - 1
  {
  }

  lemma ProductBelow(gross: nat, net: nat) returns (n: nat)
    requires 0 < net <= 3_354 && 0 < gross <= 3_468
    ensures n == 2 * gross * net && 0 < n < 0x1_0000_0000
  {
    n := 2 * (gross * net);
    MulMonotone(gross, 3_468, net);
    MulMonotone(1, gross, net);
    FourFactors(2, gross, net);
  }

  lemma WitnessReturns(n: nat, net: nat, gross: nat)
    requires n == 2 * gross * net && 0 < n < 0x1_0000_0000
    requires 0 < net <= 3_354 && 0 < gross && 100 * gross <= 102 * net - 1
    ensures ConstantProductSwap(100 * n, 100 * n + net, net, 0) == net
    ensures gross <= ConstantProductSwap(100 * n + net, 102 * n, net, 0)
  {
    FirstHop(n, net);
    SecondHop(n, net, gross);
    SmallSwapIsExact(100 * n, 100 * n + net, net);
    SmallSwapIsExact(100 * n + net, 102 * n, net);
  }

  lemma HiddenReturn(from: Venue, to: Venue, a: U64, net: nat, gross: nat)
    requires from.Valid() && to.Valid() && from.dex.PumpFun? && to.dex.PumpFun?
    requires net == PumpFunNet(a) && a < PumpFunNet(gross)
    requires ConstantProductSwap(from.sol, from.token, net, 0) == net
    requires gross <= ConstantProductSwap(to.token, to.sol, net, 0)
    ensures a < to.Sell(from.Buy(a))
  {
    assert from.Buy(a) == net;
    NetMonotone(gross, GrossSell(to, net));
  }

  lemma NetMonotone(a: nat, b: nat)
    requires a <= b
    ensures PumpFunNet(a) <= PumpFunNet(b)
  {
  }

  lemma SmallSwapIsExact(x: U64, y: U64, a: U64)
    requires a <= 3_354 && y <= 0x1_0000_0000_0000
    ensures ConstantProductSwap(x, y, a, 0) == ExactSwap(x, y, a, 0)
  {
    MachineSwapIsExactIff(x, y, a, 0);
    SmallProduct(a, y);
  }

  lemma SmallProduct(a: nat, b: nat)
    requires a <= 3_354 && b <= 0x1_0000_0000_0000
    ensures a * BPS * b < U128_LIMIT
  {
    MulMonotone(a, 3_354, BPS * b);
    FourFactors(a, BPS, b);
  }

  lemma EqualRatio(n: nat, tokens: nat)
    ensures 10_200 * (100 * n * tokens) == BPS * (102 * n * tokens)
  {
    FourFactors(100, n, tokens);
    FourFactors(102, n, tokens);
  }

  lemma FirstHop(n: nat, net: nat)
    requires 0 < n && 0 < net
    ensures ExactSwap(100 * n, 100 * n + net, net, 0) == net
  {
    var d := 100 * n * BPS + net * BPS;
    assert net * BPS * (100 * n + net) == net * d;
    QuotientIsLargest(net * BPS * (100 * n + net), d, net);
    QuotientIsLargest(net * BPS * (100 * n + net), d, net + 1);
    Distribute(d, net, 1);
  }

  lemma SecondHop(n: nat, net: nat, gross: nat)
    requires 0 < net && 0 < gross && 100 * gross <= 102 * net - 1 && n == 2 * gross * net
    ensures 0 < n && gross <= ExactSwap(100 * n + net, 102 * n, net, 0)
  {
    MulMonotone(1, gross, net);
    WitnessSize(n, net, gross);
    var d := 100 * n + 2 * net;
    FourFactors(BPS, gross, d);
    FourFactors(BPS, net, 102 * n);
    QuotientIsLargest(net * BPS * (102 * n), BPS * d, gross);
  }

  lemma WitnessSize(n: nat, net: nat, gross: nat)
    requires 100 * gross <= 102 * net - 1 && n == 2 * gross * net
    ensures gross * (100 * n + 2 * net) <= net * (102 * n)
  {
    MulMonotone(100 * gross + 1, 102 * net, n);
    Distribute(n, 100 * gross, 1);
    Distribute(gross, 100 * n, 2 * net);
    assert gross * (2 * net) == n;
    assert gross * (100 * n) == 100 * gross * n;
    assert net * (102 * n) == 102 * net * n;
  }

  ghost predicate CurveRoutesAreFlagged(a: U64, solUsd: real) {
    forall from: Venue, to: Venue ::
      from.Valid() && to.Valid() && from.dex.PumpFun? && to.dex.PumpFun? && a < to.Sell(from.Buy(a)) ==>
        && Spread(from, to, PUMPFUN_DECIMALS, solUsd).AtLeast(0.0)
        && Spread(from, to, PUMPFUN_DECIMALS, solUsd) != Finite(0.0)
  }

  /** Between two bonding curves the filter is sound for an amount exactly when rounding hides nothing. */
  lemma CurveRoutesAreFlaggedIff(a: U64, solUsd: real)
    requires solUsd > 0.0
    ensures CurveRoutesAreFlagged(a, solUsd) <==> !RoundingHidesProfit(a)
  {
    if RoundingHidesProfit(a) {
      var from, to := HiddenRoute(a);
      SpreadSign(from, to, PUMPFUN_DECIMALS, solUsd);
    } else {
      forall from: Venue, to: Venue |
        from.Valid() && to.Valid() && from.dex.PumpFun? && to.dex.PumpFun? && a < to.Sell(from.Buy(a))
        ensures Spread(from, to, PUMPFUN_DECIMALS, solUsd).AtLeast(0.0)
        ensures Spread(from, to, PUMPFUN_DECIMALS, solUsd) != Finite(0.0)
      {
        FilterIsSound(from, to, a, PUMPFUN_DECIMALS, solUsd);
      }
    }
  }
}
