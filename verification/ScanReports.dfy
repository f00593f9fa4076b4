/**
  What a reported route says, in terms of the pools, the quotes on the chain and the
  cost model alone, and which of all routes is the one reported.
 */
module ScanReports {
  import opened MachineInts
  import opened Wrappers
  import opened Types
  import opened Quoter
  import opened GridSearch
  import opened Scanner
  import Registry = PoolRegistry
  import Costs = CostModel
  import Results = ScanResults

  /** The circumstances of one scan. */
  datatype Market = Market(
    pools: seq<KnownPool>, rpc: Rpc, token: string, symbol: string, trade: Trade, cost: Costs.CostModel)
  {
    function AsSearch(): Search {
      SearchOn(pools, rpc, token, symbol, trade, cost)
    }

    /** The pool quotes `out` for `amount` of the mint. */
    predicate Leg(pool: KnownPool, mint: string, amount: U64, out: U64) {
      var q := QuoteSwap(pool, mint, amount, rpc); q.Success? && q.value.outputAmount == out
    }

    /**
      SOL buys `tokens` on the pool at `i`, which sell for `out` lamports on the pool at
      `j`, on another DEX; neither leg is empty, and `out` is at most five times the trade.
     */
    predicate Trades(i: int, j: int, tokens: U64, out: U64) {
      && 0 <= i < |pools| && 0 <= j < |pools| && pools[i].dex != pools[j].dex
      && Leg(pools[i], WSOL_MINT, trade, tokens) && 0 < tokens
      && Leg(pools[j], token, tokens, out) && 0 < out <= 5 * trade
    }

    /** The figures of a result are those the cost model explains for a raw output. */
    ghost predicate Figures(r: CrossVenueResult, out: U64) {
      exists e: Costs.ScanEconomics | Costs.Explains(cost, e) ::
        && e.inputLamports == trade == r.inputLamports && e.rawOutputLamports == out
        && r.outputLamports == e.realisticOutputLamports
        && r.grossProfitLamports == e.grossProfitLamports
        && r.netProfitLamports == e.netProfitLamports
        && r.profitBps == e.profitBps
        && r.fixedCostLamports == e.fixedCostLamports
        && r.jitoTipLamports == e.jitoTipLamports
        && r.slippageLamports == e.slippageLamports
        && (r.profitable <==> 0 < e.netProfitLamports)
    }

    predicate Named(r: CrossVenueResult, buyPool: KnownPool, sellPool: KnownPool) {
      r.tokenMint == token && r.tokenSymbol == symbol && r.buyPool == buyPool && r.sellPool == sellPool
    }

    /** The result shows buying on the pool at `i` and selling on the pool at `j`. */
    ghost predicate Shows(r: CrossVenueResult, i: int, j: int) {
      exists out: U64 | Trades(i, j, r.tokensReceived, out) :: Named(r, pools[i], pools[j]) && Figures(r, out)
    }

    /** The result shows buying and selling back on one pool. */
    ghost predicate ShowsRoundTrip(r: CrossVenueResult, pool: KnownPool) {
      exists out: U64 | Leg(pool, token, r.tokensReceived, out) ::
        && Leg(pool, WSOL_MINT, trade, r.tokensReceived) && 0 < r.tokensReceived && out <= 5 * trade
        && Named(r, pool, pool) && Figures(r, out)
    }
  }

  // ----- one route -----

  lemma FiguresAre(m: Market, buyPool: KnownPool, sellPool: KnownPool, tokens: U64, out: U64)
    ensures var r := CrossVenue(m.token, m.symbol, buyPool, sellPool, tokens, m.cost.Compute(m.trade, out));
            m.Named(r, buyPool, sellPool) && r.tokensReceived == tokens && m.Figures(r, out)
  {
    Costs.ComputeExplained(m.cost, m.trade, out);
  }

  /** The figures of a result follow from its raw output. */
  lemma OnlyFigures(m: Market, r: CrossVenueResult, out: U64)
    requires m.Figures(r, out)
    ensures r == CrossVenue(
                   r.tokenMint, r.tokenSymbol, r.buyPool, r.sellPool, r.tokensReceived, m.cost.Compute(m.trade, out))
  {
    var e: Costs.ScanEconomics :|
      && Costs.Explains(m.cost, e)
      && e.inputLamports == m.trade == r.inputLamports && e.rawOutputLamports == out
      && r.outputLamports == e.realisticOutputLamports
      && r.grossProfitLamports == e.grossProfitLamports
      && r.netProfitLamports == e.netProfitLamports
      && r.profitBps == e.profitBps
      && r.fixedCostLamports == e.fixedCostLamports
      && r.jitoTipLamports == e.jitoTipLamports
      && r.slippageLamports == e.slippageLamports
      && (r.profitable <==> 0 < e.netProfitLamports);
    Costs.ExplainedIff(m.cost, e);
  }

  lemma QuotesOf(m: Market, pool: KnownPool, mint: string, amount: U64, out: U64)
    requires 0 < out
    ensures m.Leg(pool, mint, amount, out) <==> OutputOf(m.AsSearch().quote(pool, mint, amount)) == out
  {
  }

  lemma AdmissibleIff(m: Market, i: int, j: int)
    ensures m.AsSearch().Admissible((i, j)) <==> exists tokens: U64, out: U64 :: m.Trades(i, j, tokens, out)
    ensures m.AsSearch().Admissible((i, j)) ==> m.Trades(i, j, m.AsSearch().Tokens(i), m.AsSearch().SolOut(i, j))
  {
    var s := m.AsSearch();
    if s.Admissible((i, j)) {
      QuotesOf(m, m.pools[i], WSOL_MINT, m.trade, s.Tokens(i));
      QuotesOf(m, m.pools[j], m.token, s.Tokens(i), s.SolOut(i, j));
      assert m.Trades(i, j, s.Tokens(i), s.SolOut(i, j));
    }
  }

  /** An admissible pair is shown by its route, and by nothing else. */
  lemma ShownIff(m: Market, r: CrossVenueResult, i: int, j: int)
    ensures m.Shows(r, i, j) <==> m.AsSearch().Admissible((i, j)) && r == m.AsSearch().Route((i, j))
  {
    var s := m.AsSearch();
    AdmissibleIff(m, i, j);
    if s.Admissible((i, j)) {
      Results.EconomicsOf(s, m.rpc, m.cost, s.SolOut(i, j));
      FiguresAre(m, m.pools[i], m.pools[j], s.Tokens(i), s.SolOut(i, j));
      assert m.Shows(s.Route((i, j)), i, j);
    }
    if m.Shows(r, i, j) {
      var out: U64 :| m.Trades(i, j, r.tokensReceived, out) && m.Named(r, m.pools[i], m.pools[j]) && m.Figures(r, out);
      OnlyFigures(m, r, out);
      QuotesOf(m, m.pools[i], WSOL_MINT, m.trade, r.tokensReceived);
      QuotesOf(m, m.pools[j], m.token, r.tokensReceived, out);
    }
  }

  // ----- the route reported -----

  /** Before in the order of the buy pools, then of the sell pools. */
  predicate Earlier(i: int, j: int, k: int, l: int) {
    i < k || (i == k && j < l)
  }

  ghost predicate NothingTrades(m: Market) {
    forall i, j, tokens: U64, out: U64 :: !m.Trades(i, j, tokens, out)
  }

  /** No route shown by any pair nets more, and none before it nets as much. */
  ghost predicate FirstOfMaximalNet(m: Market, r: CrossVenueResult, i: int, j: int) {
    forall other: CrossVenueResult, k, l | m.Shows(other, k, l) ::
      && other.netProfitLamports <= r.netProfitLamports
      && (Earlier(k, l, i, j) ==> other.netProfitLamports < r.netProfitLamports)
  }

  ghost predicate NoneBeforeProfits(m: Market, i: int, j: int) {
    forall other: CrossVenueResult, k, l | m.Shows(other, k, l) && Earlier(k, l, i, j) :: !other.profitable
  }

  lemma NoPairNoTrade(m: Market)
    requires m.AsSearch().AsGrid().BestFound(None)
    ensures NothingTrades(m)
  {
    forall i, j, tokens: U64, out: U64
      ensures !m.Trades(i, j, tokens, out)
    {
      AdmissibleIff(m, i, j);
      assert !m.AsSearch().AsGrid().ok((i, j));
    }
  }

  lemma BestPairIsFirst(m: Market, p: Pair)
    requires m.AsSearch().AsGrid().IsBest(p)
    ensures m.Shows(m.AsSearch().Route(p), p.0, p.1) && FirstOfMaximalNet(m, m.AsSearch().Route(p), p.0, p.1)
  {
    var r := m.AsSearch().Route(p);
    ShownIff(m, r, p.0, p.1);
    forall other: CrossVenueResult, k, l | m.Shows(other, k, l)
      ensures other.netProfitLamports <= r.netProfitLamports
      ensures Earlier(k, l, p.0, p.1) ==> other.netProfitLamports < r.netProfitLamports
    {
      ShownIff(m, other, k, l);
      assert m.AsSearch().AsGrid().ok((k, l));
    }
  }

  /**
    The periodic scan: it fails exactly when nothing trades; otherwise it reports the
    first pair, in pool order, whose route nets as much as any, as it is.
   */
  lemma BestScanIs(m: Market, r: Scan)
    requires m.AsSearch().BestOutcome(r)
    ensures r.Failure? <==> NothingTrades(m)
    ensures r.Success? ==> exists i, j :: m.Shows(r.value, i, j) && FirstOfMaximalNet(m, r.value, i, j)
  {
    var s := m.AsSearch();
    var found :| s.AsGrid().BestFound(found) && s.Reports(found, r);
    if found.None? {
      NoPairNoTrade(m);
    } else {
      BestPairIsFirst(m, found.value);
      var i, j := found.value.0, found.value.1;
      AdmissibleIff(m, i, j);
      assert m.Shows(r.value, i, j) && FirstOfMaximalNet(m, r.value, i, j);
    }
  }

  lemma FirstProfitIs(m: Market, p: Pair)
    requires m.AsSearch().AsGrid().IsFirstProfitable(p)
    ensures m.Shows(m.AsSearch().Route(p), p.0, p.1) && m.AsSearch().Route(p).profitable
    ensures NoneBeforeProfits(m, p.0, p.1)
  {
    ShownIff(m, m.AsSearch().Route(p), p.0, p.1);
    forall other: CrossVenueResult, k, l | m.Shows(other, k, l) && Earlier(k, l, p.0, p.1)
      ensures !other.profitable
    {
      ShownIff(m, other, k, l);
      assert m.AsSearch().AsGrid().ok((k, l)) && Precedes((k, l), p);
    }
  }

  lemma NoProfitIs(m: Market)
    requires forall q | m.AsSearch().AsGrid().ok(q) :: m.AsSearch().AsGrid().net(q) <= 0
    ensures forall other: CrossVenueResult, k, l | m.Shows(other, k, l) :: !other.profitable
  {
    forall other: CrossVenueResult, k, l | m.Shows(other, k, l)
      ensures !other.profitable
    {
      ShownIff(m, other, k, l);
      assert m.AsSearch().AsGrid().ok((k, l));
    }
  }

  /**
    The triggered scan: it fails exactly when nothing trades; it reports the first
    pair whose route is profitable, and when there is none the first of maximal net.
   */
  lemma EarlyScanIs(m: Market, r: Scan)
    requires m.AsSearch().EarlyOutcome(r)
    ensures r.Failure? <==> NothingTrades(m)
    ensures r.Success? ==> exists i, j ::
              && m.Shows(r.value, i, j)
              && if r.value.profitable then NoneBeforeProfits(m, i, j)
                 else FirstOfMaximalNet(m, r.value, i, j)
  {
    var s := m.AsSearch();
    var found :| s.AsGrid().EarlyFound(found) && s.Reports(found, r);
    if found.None? {
      NoPairNoTrade(m);
    } else {
      var p := found.value;
      AdmissibleIff(m, p.0, p.1);
      ShownIff(m, r.value, p.0, p.1);
      if s.AsGrid().IsFirstProfitable(p) {
        FirstProfitIs(m, p);
      } else {
        BestPairIsFirst(m, p);
        NoProfitIs(m);
      }
      assert m.Shows(r.value, p.0, p.1)
          && if r.value.profitable then NoneBeforeProfits(m, p.0, p.1) else FirstOfMaximalNet(m, r.value, p.0, p.1);
    }
  }

  // ----- back-runs -----

  ghost predicate FirstOnDex(pools: seq<KnownPool>, dex: Dex, k: int) {
    0 <= k < |pools| && pools[k].dex == dex && forall j | 0 <= j < k :: pools[j].dex != dex
  }

  lemma {:induction false} FirstOnIs(pools: seq<KnownPool>, dex: Dex) returns (k: int)
    ensures match Registry.FirstOn(pools, dex)
            case None => forall j | 0 <= j < |pools| :: pools[j].dex != dex
            case Some(pool) => FirstOnDex(pools, dex, k) && pools[k] == pool
    decreases |pools|
  {
    k := 0;
    if pools != [] && pools[0].dex != dex {
      k := FirstOnIs(pools[1..], dex);
      k := k + 1;
      assert forall j | 1 <= j < |pools| :: pools[j] == pools[1..][j - 1];
    }
  }

  /** Both legs can be made on the pool: the first pays something, the second at most five times the trade. */
  ghost predicate TradesBack(m: Market, pool: KnownPool) {
    exists tokens: U64, out: U64 ::
      m.Leg(pool, WSOL_MINT, m.trade, tokens) && 0 < tokens && m.Leg(pool, m.token, tokens, out) && out <= 5 * m.trade
  }

  lemma TradesBackIff(m: Market, pool: KnownPool)
    ensures CanTradeBack(m.AsSearch(), pool) <==> TradesBack(m, pool)
  {
    var s := m.AsSearch();
    var tokens := OutputOf(s.quote(pool, WSOL_MINT, m.trade));
    if CanTradeBack(s, pool) {
      QuotesOf(m, pool, WSOL_MINT, m.trade, tokens);
      var out := s.quote(pool, m.token, tokens).value.outputAmount;
      assert m.Leg(pool, WSOL_MINT, m.trade, tokens) && m.Leg(pool, m.token, tokens, out);
    }
    if TradesBack(m, pool) {
      var bought: U64, out: U64 :|
        && m.Leg(pool, WSOL_MINT, m.trade, bought) && 0 < bought
        && m.Leg(pool, m.token, bought, out) && out <= 5 * m.trade;
      QuotesOf(m, pool, WSOL_MINT, m.trade, bought);
    }
  }

  lemma RoundTripShown(m: Market, pool: KnownPool, r: CrossVenueResult)
    requires CanTradeBack(m.AsSearch(), pool) && IsRoundTrip(m.AsSearch(), pool, r)
    ensures m.ShowsRoundTrip(r, pool)
  {
    var s := m.AsSearch();
    var tokens := OutputOf(s.quote(pool, WSOL_MINT, m.trade));
    var out := OutputOf(s.quote(pool, m.token, tokens));
    QuotesOf(m, pool, WSOL_MINT, m.trade, tokens);
    Results.EconomicsOf(s, m.rpc, m.cost, out);
    FiguresAre(m, pool, pool, tokens, out);
    assert m.Leg(pool, m.token, tokens, out);
  }

  lemma BackrunAt(m: Market, dex: Dex, direction: SwapDirection, r: Scan, k: int)
    requires IsBackrun(m.AsSearch(), dex, direction, r) && FirstOnDex(m.pools, dex, k)
    ensures r.Success? <==> direction == Sell && TradesBack(m, m.pools[k])
    ensures r.Success? ==> m.ShowsRoundTrip(r.value, m.pools[k])
  {
    var first := FirstOnIs(m.pools, dex);
    OneFirst(m.pools, dex, k, first);
    TradesBackIff(m, m.pools[k]);
    if r.Success? {
      RoundTripShown(m, m.pools[k], r.value);
    }
  }

  lemma OneFirst(pools: seq<KnownPool>, dex: Dex, k: int, first: int)
    requires FirstOnDex(pools, dex, k)
    ensures FirstOnDex(pools, dex, first) ==> first == k
  {
  }

  lemma NoPoolNoBackrun(m: Market, dex: Dex, direction: SwapDirection, r: Scan)
    requires IsBackrun(m.AsSearch(), dex, direction, r) && forall k :: !FirstOnDex(m.pools, dex, k)
    ensures r.Failure?
  {
    var first := FirstOnIs(m.pools, dex);
  }

  /**
    A back-run succeeds exactly on a sell trigger when the first pool of the trigger's
    DEX can be traded into and back, and then shows that round trip.
   */
  lemma BackrunIs(m: Market, dex: Dex, direction: SwapDirection, r: Scan)
    requires IsBackrun(m.AsSearch(), dex, direction, r)
    ensures r.Success? <==>
              direction == Sell && exists k :: FirstOnDex(m.pools, dex, k) && TradesBack(m, m.pools[k])
    ensures forall k | r.Success? && FirstOnDex(m.pools, dex, k) :: m.ShowsRoundTrip(r.value, m.pools[k])
  {
    if k :| FirstOnDex(m.pools, dex, k) {
      BackrunAt(m, dex, direction, r, k);
      forall j | FirstOnDex(m.pools, dex, j)
        ensures j == k
      {
        OneFirst(m.pools, dex, k, j);
      }
    } else {
      NoPoolNoBackrun(m, dex, direction, r);
    }
  }
}
