/** What the scanner can and cannot report. */
module ScanResults {
  import opened MachineInts
  import opened Wrappers
  import opened Types
  import opened Amm
  import opened AmmMachine
  import opened Quoter
  import opened GridSearch
  import opened Scanner
  import opened SamePool
  import opened Prices
  import opened RouteFilter
  import opened OrcaFees
  import FeeFilter
  import Registry = PoolRegistry
  import Costs = CostModel
  import Splits = MachineSplits

  lemma EconomicsOf(s: Search, rpc: Rpc, cost: Costs.CostModel, output: U64)
    requires s == SearchOn(s.pools, rpc, s.tokenMint, s.tokenSymbol, s.trade, cost)
    ensures s.economics(output) == cost.Compute(s.trade, output)
  {
  }

  // ----- early exit against exhaustive search -----

  /**
    On the same search, the early-exit scan succeeds, and is profitable, exactly
    when the exhaustive one is; it returns the same result when nothing is
    profitable, and otherwise the first profitable route in pool order.
   */
  lemma TriggeredRefinesExhaustive(s: Search, early: Scan, full: Scan)
    requires s.EarlyOutcome(early) && s.BestOutcome(full)
    ensures early.Success? <==> full.Success?
    ensures full.Success? ==>
              && (early.value.profitable <==> full.value.profitable)
              && early.value.netProfitLamports <= full.value.netProfitLamports
              && (!full.value.profitable ==> early == full)
              && (full.value.profitable ==>
                    exists p :: s.AsGrid().IsFirstProfitable(p) && early == Success(s.Route(p)))
  {
    var e :| s.AsGrid().EarlyFound(e) && s.Reports(e, early);
    var b :| s.AsGrid().BestFound(b) && s.Reports(b, full);
    EarlyRefinesBest(s.AsGrid(), e, b);
    if b.Some? && 0 < s.Net(b.value) {
      assert s.AsGrid().IsFirstProfitable(e.value) && early == Success(s.Route(e.value));
    }
  }

  /** The exhaustive scan reports the net profit of any admissible pair with the largest SOL output. */
  lemma BestNetIsThatOfLargestOutput(
    s: Search, full: Scan, rpc: Rpc, cost: Costs.CostModel, largest: Pair)
    requires cost.Fits(s.trade) && cost.jitoTipFraction <= 1.0
    requires s == SearchOn(s.pools, rpc, s.tokenMint, s.tokenSymbol, s.trade, cost)
    requires s.BestOutcome(full)
    requires s.Admissible(largest)
    requires forall q | s.Admissible(q) :: s.SolOut(q.0, q.1) <= s.SolOut(largest.0, largest.1)
    ensures full.Success? && full.value.netProfitLamports == s.Net(largest)
  {
    var b :| s.AsGrid().BestFound(b) && s.Reports(b, full);
    assert s.AsGrid().ok(largest);
    var p := b.value;
    Costs.NetIsMonotone(cost, s.trade, s.SolOut(p.0, p.1), s.SolOut(largest.0, largest.1));
    EconomicsOf(s, rpc, cost, s.SolOut(p.0, p.1));
    EconomicsOf(s, rpc, cost, s.SolOut(largest.0, largest.1));
    assert s.AsGrid().net(largest) <= s.AsGrid().net(p);
  }

  // ----- arithmetic of a reported route -----

  /** Buy legs are exact for every pool and every trade the scanner makes. */
  lemma BuyLegIsExact(reserveIn: U64, reserveOut: U64, trade: Trade, feeBps: nat)
    requires feeBps <= BPS
    ensures ConstantProductSwap(reserveIn, reserveOut, trade, feeBps) == ExactSwap(reserveIn, reserveOut, trade, feeBps)
  {
    BuyLegNeverOverflows(reserveOut, trade, feeBps);
    MachineSwapIsExactIff(reserveIn, reserveOut, trade, feeBps);
  }

  /** The cost figures of an output within the 5x check add up and fit in an i64. */
  predicate FiguresAreExact(cost: Costs.CostModel, e: Costs.ScanEconomics) {
    && e.grossProfitLamports == e.realisticOutputLamports - e.inputLamports
    && e.netProfitLamports == e.grossProfitLamports - e.fixedCostLamports - e.jitoTipLamports
    && e.fixedCostLamports == cost.TotalFee()
    && e.netProfitLamports <= e.grossProfitLamports
    && InI64(e.netProfitLamports) && InI64(e.grossProfitLamports)
  }

  lemma ComputeIsExact(cost: Costs.CostModel, trade: U64, output: U64)
    requires cost.Fits(trade) && cost.jitoTipFraction <= 1.0 && output < I64_LIMIT
    ensures FiguresAreExact(cost, cost.Compute(trade, output))
  {
    Costs.NothingWraps(cost, trade, output);
    var gross := cost.GrossProfit(trade, output);
    var k := WrapI64Shift(gross - cost.FixedCosts() - cost.JitoTipLamports(gross));
  }

  /** The 5x check keeps every cost figure of a reported route inside an i64, computed without wrap-around. */
  lemma ReportedRouteIsExact(s: Search, rpc: Rpc, cost: Costs.CostModel, p: Pair)
    requires cost.Fits(s.trade) && cost.jitoTipFraction <= 1.0
    requires s == SearchOn(s.pools, rpc, s.tokenMint, s.tokenSymbol, s.trade, cost)
    requires s.Admissible(p)
    ensures var r, e := s.Route(p), cost.Compute(s.trade, s.SolOut(p.0, p.1));
            && FiguresAreExact(cost, e)
            && r.inputLamports == s.trade && r.outputLamports == e.realisticOutputLamports
            && r.grossProfitLamports == e.grossProfitLamports && r.netProfitLamports == e.netProfitLamports
            && r.fixedCostLamports == e.fixedCostLamports && r.jitoTipLamports == e.jitoTipLamports
  {
    EconomicsOf(s, rpc, cost, s.SolOut(p.0, p.1));
    ComputeIsExact(cost, s.trade, s.SolOut(p.0, p.1));
  }

  // ----- same-pool back-runs -----

  lemma FirstOnIsMember(pools: seq<KnownPool>, dex: Dex)
    requires Registry.FirstOn(pools, dex).Some?
    ensures Registry.FirstOn(pools, dex).value in pools && Registry.FirstOn(pools, dex).value.dex == dex
  {
    if pools[0].dex != dex {
      FirstOnIsMember(pools[1..], dex);
    }
  }

  /** A back-run's raw output is what the round trip returns. */
  lemma BackrunReturns(s: Search, rpc: Rpc, cost: Costs.CostModel, pool: KnownPool)
    requires s == SearchOn(s.pools, rpc, s.tokenMint, s.tokenSymbol, s.trade, cost) && CanTradeBack(s, pool)
    ensures OutputOf(s.quote(pool, s.tokenMint, OutputOf(s.quote(pool, WSOL_MINT, s.trade))))
         == ReturnOf(pool, s.tokenMint, s.trade, rpc)
  {
  }

  /**
    A same-pool back-run never reports a profit when the pool it picks is oriented,
    whatever the chain state, the signal, the penalty and the tip fraction.
   */
  lemma BackrunNeverProfits(
    s: Search, rpc: Rpc, cost: Costs.CostModel, triggerDex: Dex, direction: SwapDirection, r: Scan)
    requires s == SearchOn(s.pools, rpc, s.tokenMint, s.tokenSymbol, s.trade, cost)
    requires s.tokenMint != WSOL_MINT && cost.LossesStayLosses(s.trade)
    requires forall p | p in s.pools && p.dex == triggerDex :: Oriented(p, s.tokenMint, rpc)
    requires IsBackrun(s, triggerDex, direction, r)
    ensures r.Success? ==> !r.value.profitable
  {
    if r.Success? {
      var pool := Registry.FirstOn(s.pools, triggerDex).value;
      FirstOnIsMember(s.pools, triggerDex);
      BackrunReturns(s, rpc, cost, pool);
      OrientedRoundTripNeverGains(pool, s.tokenMint, s.trade, rpc);
      Costs.NoGainWithoutOutput(cost, s.trade, ReturnOf(pool, s.tokenMint, s.trade, rpc));
      EconomicsOf(s, rpc, cost, ReturnOf(pool, s.tokenMint, s.trade, rpc));
    }
  }

  /** No back-run on this pool is ever profitable, in any chain state with this first mint. */
  ghost predicate BackrunsNeverProfit(pool: KnownPool, token: string, first: Option<string>) {
    forall rpc: Rpc, symbol: string, direction: SwapDirection, trade: Trade, cost: Costs.CostModel, r: Scan |
      FirstMint(pool, rpc) == first && cost.LossesStayLosses(trade)
      && IsBackrun(SearchOn([pool], rpc, token, symbol, trade, cost), pool.dex, direction, r) && r.Success? ::
        !r.value.profitable
  }

  /** Raw output past the default threshold, within the 5x check: a profitable back-run. */
  lemma ProfitableBackrun(pool: KnownPool, token: string, rpc: Rpc, trade: Trade, tokens: U64, back: U64)
    requires QuoteSwap(pool, WSOL_MINT, trade, rpc).Success? && QuoteSwap(pool, token, tokens, rpc).Success?
    requires QuoteSwap(pool, WSOL_MINT, trade, rpc).value.outputAmount == tokens && 0 < tokens
    requires QuoteSwap(pool, token, tokens, rpc).value.outputAmount == back
    requires Costs.DefaultThreshold(trade) <= back <= trade * 5
    ensures !BackrunsNeverProfit(pool, token, FirstMint(pool, rpc))
  {
    var s := SearchOn([pool], rpc, token, "", trade, Costs.DEFAULT);
    Costs.DefaultProfitIff(trade, back);
    Costs.FittingLossesStayLosses(Costs.DEFAULT, trade);
    var r: Scan := Success(CrossVenue(token, "", pool, pool, tokens, s.economics(back)));
    assert Registry.FirstOn([pool], pool.dex) == Some(pool);
    assert s.quote(pool, WSOL_MINT, trade) == QuoteSwap(pool, WSOL_MINT, trade, rpc);
    assert s.quote(pool, token, tokens) == QuoteSwap(pool, token, tokens, rpc);
    assert IsBackrun(s, pool.dex, Sell, r);
  }

  lemma TwoForOneTwice()
    ensures ConstantProductSwap(100_000_000_000_000, 200_000_000_000_000, 1_000_000_000, CP_FEE_BPS) == 1_994_980_100
    ensures ConstantProductSwap(100_000_000_000_000, 200_000_000_000_000, 1_994_980_100, CP_FEE_BPS) == 3_979_906_099
  {
    MachineSwapIsExactIff(100_000_000_000_000, 200_000_000_000_000, 1_000_000_000, CP_FEE_BPS);
    MachineSwapIsExactIff(100_000_000_000_000, 200_000_000_000_000, 1_994_980_100, CP_FEE_BPS);
  }

  /** Two tokens for a lamport on a pool quoted in the token: one SOL "returns" almost four. */
  lemma MisorientedVaultsProfit(pool: KnownPool, token: string)
    requires VaultPool(pool.dex) && token != WSOL_MINT && token == pool.quoteMint
    requires pool.vaultAddresses.Some? && pool.vaultAddresses.value.0 != pool.vaultAddresses.value.1
    ensures !BackrunsNeverProfit(pool, token, None)
  {
    var (base, quote) := pool.vaultAddresses.value;
    var rpc := Up(map[base := VaultAccount(200_000_000_000_000), quote := VaultAccount(100_000_000_000_000)]);
    assert Vaults(pool, rpc) == Some((200_000_000_000_000, 100_000_000_000_000));
    VaultQuote(pool, WSOL_MINT, 1_000_000_000, rpc);
    VaultQuote(pool, token, 1_994_980_100, rpc);
    TwoForOneTwice();
    ProfitableBackrun(pool, token, rpc, 1_000_000_000, 1_994_980_100, 3_979_906_099);
  }

  lemma MisorientedMintsProfit(pool: KnownPool, token: string, first: string)
    requires Concentrated(pool.dex) && first !in {WSOL_MINT, token}
    ensures !BackrunsNeverProfit(pool, token, Some(first))
  {
    MisorientedMints(pool, token, first);
    ProfitableBackrun(pool, token, ThirdMintPool(pool, first), 100_000_000, 177_156_000, 313_842_483);
  }

  /** Back-runs on a pool are never profitable exactly when its round trip runs both ways. */
  lemma BackrunsNeverProfitIff(pool: KnownPool, token: string, first: Option<string>)
    requires token != WSOL_MINT && (first.Some? ==> Concentrated(pool.dex))
    ensures BackrunsNeverProfit(pool, token, first) <==> RunsBothWays(pool, token, first)
  {
    if RunsBothWays(pool, token, first) {
      forall rpc: Rpc, symbol: string, direction: SwapDirection, trade: Trade, cost: Costs.CostModel, r: Scan |
        FirstMint(pool, rpc) == first && cost.LossesStayLosses(trade)
        && IsBackrun(SearchOn([pool], rpc, token, symbol, trade, cost), pool.dex, direction, r) && r.Success?
        ensures !r.value.profitable
      {
        BackrunNeverProfits(SearchOn([pool], rpc, token, symbol, trade, cost), rpc, cost, pool.dex, direction, r);
      }
    } else if VaultPool(pool.dex) {
      MisorientedVaultsProfit(pool, token);
    } else {
      MisorientedMintsProfit(pool, token, first.value);
    }
  }

  // ----- a reported profit and the detector -----

  /** The venue behind a pool, as the quoter reads it. */
  function VenueOf(pool: KnownPool, rpc: Rpc): Option<AnyVenue> {
    match pool.dex
    case Raydium | PumpSwap =>
      (match Vaults(pool, rpc)
       case None => None
       case Some((base, quote)) => Some(Reserves(FeeFilter.Venue(pool.dex, quote, base))))
    case _ =>
      if rpc.Up? && pool.poolAddress in rpc.accounts then VenueAt(pool.dex, rpc.accounts[pool.poolAddress]) else None
  }

  function VenueAt(dex: Dex, account: Account): Option<AnyVenue> {
    match dex
    case PumpFun =>
      (match account.pumpFun
       case None => None
       case Some(state) =>
         if state.complete then None
         else Some(Reserves(FeeFilter.Venue(PumpFun, state.virtualSolReserves, state.virtualTokenReserves))))
    case RaydiumClmm =>
      (match account.clmm
       case None => None
       case Some(state) => Some(Ticks(RaydiumClmm, state.sqrtPriceX64, state.liquidity, 0, state.mint0 == WSOL_MINT)))
    case Orca =>
      (match (account.sqrtPrice, account.whirlpool)
       case (Some(sqrtPrice), Some(state)) =>
         Some(Ticks(Orca, sqrtPrice, state.liquidity, state.feeRate, state.mintA == WSOL_MINT))
       case _ => None)
    case _ => None
  }

  function BuyOf(v: Option<AnyVenue>, amount: U64): U64 {
    if v.Some? && v.value.Valid() then v.value.Buy(amount) else 0
  }

  function SellOf(v: Option<AnyVenue>, amount: U64): U64 {
    if v.Some? && v.value.Valid() then v.value.Sell(amount) else 0
  }

  lemma BuyQuoteIsVenueBuy(pool: KnownPool, amount: U64, rpc: Rpc)
    ensures OutputOf(QuoteSwap(pool, WSOL_MINT, amount, rpc)) == BuyOf(VenueOf(pool, rpc), amount)
  {
    if VaultPool(pool.dex) {
      VaultQuote(pool, WSOL_MINT, amount, rpc);
    } else {
      assert pool.poolAddress in [pool.poolAddress];
    }
  }

  lemma SellQuoteIsVenueSell(pool: KnownPool, token: string, amount: U64, rpc: Rpc)
    requires token != WSOL_MINT && Oriented(pool, token, rpc)
    ensures OutputOf(QuoteSwap(pool, token, amount, rpc)) == SellOf(VenueOf(pool, rpc), amount)
  {
    if VaultPool(pool.dex) {
      VaultQuote(pool, token, amount, rpc);
    } else {
      assert pool.poolAddress in [pool.poolAddress];
    }
  }

  /** The two legs of an admissible route are those of two valid venues on different DEXs. */
  lemma RouteOfVenues(s: Search, rpc: Rpc, cost: Costs.CostModel, p: Pair)
    requires s == SearchOn(s.pools, rpc, s.tokenMint, s.tokenSymbol, s.trade, cost)
    requires s.Admissible(p) && s.tokenMint != WSOL_MINT && Oriented(s.pools[p.1], s.tokenMint, rpc)
    ensures var from, to := VenueOf(s.pools[p.0], rpc), VenueOf(s.pools[p.1], rpc);
            && from.Some? && from.value.Valid() && to.Some? && to.value.Valid()
            && from.value.Dex() == s.pools[p.0].dex && to.value.Dex() == s.pools[p.1].dex
            && s.SolOut(p.0, p.1) == to.value.Sell(from.value.Buy(s.trade))
  {
    BuyQuoteIsVenueBuy(s.pools[p.0], s.trade, rpc);
    SellQuoteIsVenueSell(s.pools[p.1], s.tokenMint, s.Tokens(p.0), rpc);
  }

  /**
    Every route the scanner reports as profitable, on any of the five DEXs, has a
    strictly positive spread by the detector's linear estimate from the same state,
    provided an Orca leg charges the minimum rate of `OrcaFees`.
   */
  lemma ProfitableRouteIsFlagged(
    s: Search, rpc: Rpc, cost: Costs.CostModel, p: Pair, tokenDecimals: nat, solUsd: real)
    requires cost.LossesStayLosses(s.trade) && solUsd > 0.0
    requires s == SearchOn(s.pools, rpc, s.tokenMint, s.tokenSymbol, s.trade, cost)
    requires s.Admissible(p) && s.Route(p).profitable
    requires s.tokenMint != WSOL_MINT && Oriented(s.pools[p.1], s.tokenMint, rpc)
    requires s.pools[p.0].dex.PumpFun? || s.pools[p.1].dex.PumpFun? ==> tokenDecimals == PUMPFUN_DECIMALS
    ensures var from, to := VenueOf(s.pools[p.0], rpc), VenueOf(s.pools[p.1], rpc);
            && from.Some? && from.value.Valid() && to.Some? && to.value.Valid()
            && (RatesSuffice(from.value, to.value) ==> Flagged(from.value, to.value, tokenDecimals, solUsd))
  {
    RouteOfVenues(s, rpc, cost, p);
    ProfitNeedsOutput(s, rpc, cost, p);
    var from, to := VenueOf(s.pools[p.0], rpc).value, VenueOf(s.pools[p.1], rpc).value;
    if RatesSuffice(from, to) {
      DifferentDexesAreFlagged(from, to, s.trade, tokenDecimals, solUsd);
    }
  }

  lemma ProfitNeedsOutput(s: Search, rpc: Rpc, cost: Costs.CostModel, p: Pair)
    requires cost.LossesStayLosses(s.trade)
    requires s == SearchOn(s.pools, rpc, s.tokenMint, s.tokenSymbol, s.trade, cost)
    requires s.Admissible(p) && s.Route(p).profitable
    ensures s.trade < s.SolOut(p.0, p.1)
  {
    EconomicsOf(s, rpc, cost, s.SolOut(p.0, p.1));
    if s.SolOut(p.0, p.1) <= s.trade {
      Costs.NoGainWithoutOutput(cost, s.trade, s.SolOut(p.0, p.1));
    }
  }

  /** Under the default cost model no condition on the Orca fee is needed. */
  lemma DefaultProfitableRouteIsFlagged(
    s: Search, rpc: Rpc, p: Pair, tokenDecimals: nat, solUsd: real)
    requires solUsd > 0.0 && s == SearchOn(s.pools, rpc, s.tokenMint, s.tokenSymbol, s.trade, Costs.DEFAULT)
    requires s.Admissible(p) && s.Route(p).profitable
    requires s.tokenMint != WSOL_MINT && Oriented(s.pools[p.1], s.tokenMint, rpc)
    requires s.pools[p.0].dex.PumpFun? || s.pools[p.1].dex.PumpFun? ==> tokenDecimals == PUMPFUN_DECIMALS
    ensures var from, to := VenueOf(s.pools[p.0], rpc), VenueOf(s.pools[p.1], rpc);
            && from.Some? && from.value.Valid() && to.Some? && to.value.Valid()
            && Flagged(from.value, to.value, tokenDecimals, solUsd)
  {
    RouteOfVenues(s, rpc, Costs.DEFAULT, p);
    EconomicsOf(s, rpc, Costs.DEFAULT, s.SolOut(p.0, p.1));
    DefaultProfitIsFlagged(
      VenueOf(s.pools[p.0], rpc).value, VenueOf(s.pools[p.1], rpc).value, s.trade, tokenDecimals, solUsd);
  }

  // ----- a scan with a hidden profit -----

  const FREE: Costs.CostModel := Costs.CostModel(0, 0, 0, 0.0, 0, 0.0)

  function OrcaAndRaydium(token: string): seq<KnownPool> {
    [KnownPool("o", Orca, token, WSOL_MINT, None),
     KnownPool("r", Raydium, token, WSOL_MINT, Some(("r-token", "r-sol")))]
  }

  /** An Orca pool with this rate at one lamport per unit, and Raydium half a percent higher. */
  function HalfPercentApart(rate: U16): Rpc {
    Up(map["o" := Account(None, None, Some(0x1_0000_0000_0000_0000), Some(WhirlpoolState(WSOL_MINT, 1, rate)), None),
           "r-token" := VaultAccount(1_000_000_000_000_000_000), "r-sol" := VaultAccount(1_005_000_000_000_000_000)])
  }

  lemma HalfPercentVenues(token: string, rate: U16)
    ensures VenueOf(OrcaAndRaydium(token)[0], HalfPercentApart(rate)) == Some(OrcaSide(rate))
    ensures VenueOf(OrcaAndRaydium(token)[1], HalfPercentApart(rate)) == Some(PartnerSide(Raydium))
  {
    assert Vaults(OrcaAndRaydium(token)[1], HalfPercentApart(rate))
        == Some((1_000_000_000_000_000_000, 1_005_000_000_000_000_000));
  }

  lemma HalfPercentOutput(t: U64)
    requires t <= STAKE
    ensures PartnerSide(Raydium).Valid() && PartnerSide(Raydium).Sell(t) <= 5 * STAKE
  {
    var x, y: U64 := 1_000_000_000_000_000_000, 1_005_000_000_000_000_000;
    MachineSwapIsExactIff(x, y, t, CP_FEE_BPS);
    QuotientIsLargest(t * 9_975 * y, x * BPS + t * 9_975, 5 * STAKE + 1);
  }

  lemma FreeNet(out: U64)
    requires STAKE < out <= 5 * STAKE
    ensures 0 < FREE.Compute(STAKE, out).netProfitLamports
  {
    assert FREE.TotalFee() == 0;
    assert out as real * (0.0 / 10_000.0) == 0.0;
    assert FREE.SlippageLamports(out) == 0;
    Costs.NothingWraps(FREE, STAKE, out);
    assert FREE.JitoTipLamports(out - STAKE) == 0 by {
      assert (out - STAKE) as real * 0.0 == 0.0;
    }
  }

  /**
    Below 14.83 bps the scanner, trading at no cost, reports a profit between an Orca
    and a Raydium pool that the detector does not flag.
   */
  lemma ScannerFindsHiddenRoute(token: string, rate: U16)
    requires token != WSOL_MINT && rate < MinimumRate(Raydium)
    ensures var s := SearchOn(OrcaAndRaydium(token), HalfPercentApart(rate), token, "", SCAN_LAMPORTS, FREE);
            && s.Admissible((0, 1)) && s.Route((0, 1)).profitable
            && OrcaSide(rate).Valid() && PartnerSide(Raydium).Valid()
            && VenueOf(s.pools[0], HalfPercentApart(rate)) == Some(OrcaSide(rate))
            && VenueOf(s.pools[1], HalfPercentApart(rate)) == Some(PartnerSide(Raydium))
            && !Flagged(OrcaSide(rate), PartnerSide(Raydium), PUMPFUN_DECIMALS, 1.0)
  {
    var rpc, pools := HalfPercentApart(rate), OrcaAndRaydium(token);
    HalfPercentVenues(token, rate);
    PartnerSells(Raydium, rate);
    NotFlagged(Raydium, rate);
    OrcaBuys(rate);
    var t := OrcaSide(rate).Buy(STAKE);
    HalfPercentOutput(t);
    BuyQuoteIsVenueBuy(pools[0], STAKE, rpc);
    SellQuoteIsVenueSell(pools[1], token, t, rpc);
    FreeNet(PartnerSide(Raydium).Sell(t));
  }

  // ----- profits do get reported -----

  function TwoVenues(token: string): seq<KnownPool> {
    [KnownPool("r", Raydium, token, WSOL_MINT, Some(("r-token", "r-sol"))),
     KnownPool("p", PumpSwap, token, WSOL_MINT, Some(("p-token", "p-sol")))]
  }

  /** Raydium offers two tokens for a lamport, PumpSwap takes one. */
  function TwoToOne(): Rpc {
    Up(map["r-token" := VaultAccount(200_000_000_000_000), "r-sol" := VaultAccount(100_000_000_000_000),
           "p-token" := VaultAccount(100_000_000_000_000), "p-sol" := VaultAccount(100_000_000_000_000)])
  }

  lemma TwoToOneQuotes(token: string)
    requires token != WSOL_MINT
    ensures OutputOf(QuoteSwap(TwoVenues(token)[0], WSOL_MINT, SCAN_LAMPORTS, TwoToOne())) == 1_994_980_100
    ensures OutputOf(QuoteSwap(TwoVenues(token)[1], token, 1_994_980_100, TwoToOne())) == 1_989_953_049
  {
    VaultQuote(TwoVenues(token)[0], WSOL_MINT, SCAN_LAMPORTS, TwoToOne());
    VaultQuote(TwoVenues(token)[1], token, 1_994_980_100, TwoToOne());
    assert Vaults(TwoVenues(token)[0], TwoToOne()) == Some((200_000_000_000_000, 100_000_000_000_000));
    assert Vaults(TwoVenues(token)[1], TwoToOne()) == Some((100_000_000_000_000, 100_000_000_000_000));
    TwoToOneOutputs();
  }

  lemma TwoToOneOutputs()
    ensures ConstantProductSwap(100_000_000_000_000, 200_000_000_000_000, 1_000_000_000, CP_FEE_BPS) == 1_994_980_100
    ensures ConstantProductSwap(100_000_000_000_000, 100_000_000_000_000, 1_994_980_100, CP_FEE_BPS) == 1_989_953_049
  {
    MachineSwapIsExactIff(100_000_000_000_000, 200_000_000_000_000, 1_000_000_000, CP_FEE_BPS);
    MachineSwapIsExactIff(100_000_000_000_000, 100_000_000_000_000, 1_994_980_100, CP_FEE_BPS);
  }

  /** The hypotheses above can be met: a scan of two venues whose prices differ twofold. */
  lemma ProfitableScanExists(token: string)
    requires token != WSOL_MINT
    ensures var s := SearchOn(TwoVenues(token), TwoToOne(), token, "", SCAN_LAMPORTS, Costs.DEFAULT);
            s.Admissible((0, 1)) && s.Route((0, 1)).profitable && Oriented(s.pools[1], token, TwoToOne())
  {
    TwoToOneQuotes(token);
    Costs.DefaultProfitIff(SCAN_LAMPORTS, 1_989_953_049);
  }

  // ----- a route whose sell leg wraps around -----

  /** Cheap tokens on Raydium, and 3.8 million SOL against them on PumpSwap. */
  function Overflowing(): Rpc {
    Up(map["r-token" := VaultAccount(18_000_000_000_000_000_000), "r-sol" := VaultAccount(1_000_000_000),
           "p-token" := VaultAccount(1_000_000_000_000_000_000), "p-sol" := VaultAccount(3_795_143_252_600_030)])
  }

  const MANY_TOKENS: U64 := 8_988_735_919_899_874_843

  lemma OverflowingBuy()
    ensures ConstantProductSwap(1_000_000_000, 18_000_000_000_000_000_000, 1_000_000_000, CP_FEE_BPS) == MANY_TOKENS
  {
    MachineSwapIsExactIff(1_000_000_000, 18_000_000_000_000_000_000, 1_000_000_000, CP_FEE_BPS);
  }

  lemma OverflowingSell()
    ensures ConstantProductSwap(1_000_000_000_000_000_000, 3_795_143_252_600_030, MANY_TOKENS, CP_FEE_BPS)
         == 1_999_999_999
    ensures ExactSwap(1_000_000_000_000_000_000, 3_795_143_252_600_030, MANY_TOKENS, CP_FEE_BPS)
         == 3_414_344_266_932_182
  {
    assert WrapU128(340_282_566_246_220_049_057_233_475_097_001_767_750)
        == 199_325_281_585_593_858_867_665_233_556_294;
    Splits.MachineQuotientOf(
      1_000_000_000_000_000_000, 3_795_143_252_600_030, MANY_TOKENS, CP_FEE_BPS,
      89_662_640_801_001_251_558_925, 99_662_640_801_001_251_558_925);
  }

  lemma OverflowingQuotes(token: string)
    requires token != WSOL_MINT
    ensures OutputOf(QuoteSwap(TwoVenues(token)[0], WSOL_MINT, SCAN_LAMPORTS, Overflowing())) == MANY_TOKENS
    ensures OutputOf(QuoteSwap(TwoVenues(token)[1], token, MANY_TOKENS, Overflowing())) == 1_999_999_999
  {
    VaultQuote(TwoVenues(token)[0], WSOL_MINT, SCAN_LAMPORTS, Overflowing());
    VaultQuote(TwoVenues(token)[1], token, MANY_TOKENS, Overflowing());
    assert Vaults(TwoVenues(token)[0], Overflowing()) == Some((18_000_000_000_000_000_000, 1_000_000_000));
    assert Vaults(TwoVenues(token)[1], Overflowing()) == Some((1_000_000_000_000_000_000, 3_795_143_252_600_030));
    OverflowingBuy();
    OverflowingSell();
  }

  /**
    A scan whose sell leg wraps around: the formula's output would fail the 5x check,
    the machine's passes it and is reported as a profit.
   */
  lemma WrappedRouteIsReported(token: string)
    requires token != WSOL_MINT
    ensures var s := SearchOn(TwoVenues(token), Overflowing(), token, "", SCAN_LAMPORTS, Costs.DEFAULT);
            && s.Admissible((0, 1)) && s.Route((0, 1)).profitable && s.Tokens(0) == MANY_TOKENS
            && s.SolOut(0, 1) < ExactSwap(1_000_000_000_000_000_000, 3_795_143_252_600_030, MANY_TOKENS, CP_FEE_BPS)
            && 5 * s.trade < ExactSwap(1_000_000_000_000_000_000, 3_795_143_252_600_030, MANY_TOKENS, CP_FEE_BPS)
  {
    OverflowingQuotes(token);
    OverflowingSell();
    Costs.DefaultProfitIff(SCAN_LAMPORTS, 1_999_999_999);
  }
}
