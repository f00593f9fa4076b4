/** The local cross-venue scanner of crates/arb-sim/src/local_scanner.rs. */
module Scanner {
  import opened MachineInts
  import opened Wrappers
  import opened Types
  import opened Quoter
  import opened GridSearch
  import Registry = PoolRegistry
  import Costs = CostModel

  /** Lamports a scan may trade: at most 2 SOL. */
  type Trade = n: int | 0 <= n <= 2_000_000_000

  type Scan = Result<CrossVenueResult, Error>

  const SCAN_LAMPORTS: Trade := 1_000_000_000

  /** A fraction of the signal in SOL, clamped, in lamports. */
  function TradeLamports(signalSol: real, fraction: real, low: real, high: real): Trade
    requires 0.0 <= low <= high <= 2.0
  {
    var sol := signalSol * fraction;
    var clamped := if sol < low then low else if high < sol then high else sol;
    CastAtMost(clamped * 1_000_000_000.0, 2_000_000_000);
    SaturatingU64(clamped * 1_000_000_000.0)
  }

  /** The whole lamports of an amount, kept between two bounds. */
  predicate Clamped(n: int, lamports: real, low: int, high: int) {
    if lamports < low as real then n == low
    else if high as real <= lamports then n == high
    else n as real <= lamports < n as real + 1.0
  }

  lemma TradeIs(signalSol: real, fraction: real, low: real, high: real, lowLamports: nat, highLamports: nat)
    requires 0.0 <= low <= high <= 2.0
    requires lowLamports as real == low * 1_000_000_000.0 && highLamports as real == high * 1_000_000_000.0
    ensures Clamped(TradeLamports(signalSol, fraction, low, high), signalSol * fraction * 1_000_000_000.0,
                    lowLamports, highLamports)
  {
    CastClamped(signalSol * fraction, low, high, lowLamports, highLamports);
  }

  lemma CastClamped(sol: real, low: real, high: real, lowLamports: nat, highLamports: nat)
    requires 0.0 <= low <= high <= 2.0
    requires lowLamports as real == low * 1_000_000_000.0 && highLamports as real == high * 1_000_000_000.0
    ensures var kept := if sol < low then low else if high < sol then high else sol;
            Clamped(SaturatingU64(kept * 1_000_000_000.0), sol * 1_000_000_000.0, lowLamports, highLamports)
  {
    FloorIs(low * 1_000_000_000.0, lowLamports);
    FloorIs(high * 1_000_000_000.0, highLamports);
    CastIsNearest(sol * 1_000_000_000.0);
  }

  function OutputOf(q: Quote): U64 {
    match q
    case Success(quote) => quote.outputAmount
    case Failure(_) => 0
  }

  function CrossVenue(
    tokenMint: string, tokenSymbol: string, buyPool: KnownPool, sellPool: KnownPool,
    tokensReceived: U64, econ: Costs.ScanEconomics): CrossVenueResult
  {
    CrossVenueResult(
      tokenMint, tokenSymbol, buyPool, sellPool, econ.inputLamports, tokensReceived,
      econ.realisticOutputLamports, econ.grossProfitLamports, econ.netProfitLamports, econ.profitBps,
      econ.netProfitLamports > 0, econ.fixedCostLamports, econ.jitoTipLamports, econ.slippageLamports)
  }

  /** One scan: the pools, the quoter on the current chain state, and the cost model. */
  datatype Search = Search(
    pools: seq<KnownPool>,
    tokenMint: string,
    tokenSymbol: string,
    trade: Trade,
    quote: (KnownPool, string, U64) -> Quote,
    economics: U64 -> Costs.ScanEconomics)
  {
    /** Tokens bought on a pool; 0 when the quote fails or is empty. */
    function Tokens(buy: nat): U64
      requires buy < |pools|
    {
      OutputOf(quote(pools[buy], WSOL_MINT, trade))
    }

    function SolOut(buy: nat, sell: nat): U64
      requires buy < |pools| && sell < |pools|
    {
      OutputOf(quote(pools[sell], tokenMint, Tokens(buy)))
    }

    /** A pair of pools on different DEXs whose legs are not empty and pass the 5x check. */
    predicate Admissible(p: Pair) {
      && 0 <= p.0 < |pools| && 0 <= p.1 < |pools|
      && p.0 != p.1 && pools[p.0].dex != pools[p.1].dex
      && 0 < Tokens(p.0)
      && 0 < SolOut(p.0, p.1) <= trade * 5
    }

    function Route(p: Pair): CrossVenueResult
      requires 0 <= p.0 < |pools| && 0 <= p.1 < |pools|
    {
      CrossVenue(tokenMint, tokenSymbol, pools[p.0], pools[p.1], Tokens(p.0), economics(SolOut(p.0, p.1)))
    }

    function Net(p: Pair): int {
      if 0 <= p.0 < |pools| && 0 <= p.1 < |pools| then Route(p).netProfitLamports else 0
    }

    ghost function AsGrid(): Grid {
      Grid(|pools|, p => Admissible(p), p => Net(p))
    }

    ghost function Quotes(): (quotes: seq<U64>)
      ensures |quotes| == |pools|
    {
      seq(|pools|, i requires 0 <= i < |pools| => Tokens(i))
    }

    /** What a search under way keeps: the route of the pair found so far. */
    predicate Holds(at: Option<Pair>, best: Option<CrossVenueResult>) {
      match at
      case Some(p) => Admissible(p) && best == Some(Route(p))
      case None => best == None
    }

    /** A search that has visited the pairs before `here`. */
    ghost predicate UnderWay(at: Option<Pair>, best: Option<CrossVenueResult>, here: Pair) {
      Holds(at, best) && AsGrid().BestBefore(at, here)
    }

    /** One that has found no profit there either. */
    ghost predicate Fruitless(at: Option<Pair>, best: Option<CrossVenueResult>, here: Pair) {
      UnderWay(at, best, here) && AsGrid().NoProfitBefore(here)
    }

    function BetterAt(at: Option<Pair>, p: Pair): Option<Pair> {
      if Admissible(p) && (at.None? || Net(p) > Net(at.value)) then Some(p) else at
    }

    function BetterRoute(best: Option<CrossVenueResult>, p: Pair): Option<CrossVenueResult> {
      if Admissible(p) && (best.None? || Route(p).netProfitLamports > best.value.netProfitLamports) then Some(Route(p))
      else best
    }

    /** The scan answers with the route of the pair found, or fails when there is none. */
    predicate Reports(found: Option<Pair>, r: Scan) {
      match found
      case Some(p) => Admissible(p) && r == Success(Route(p))
      case None => r.Failure?
    }

    /** The first route, in pool order, of maximal net profit. */
    ghost predicate BestOutcome(r: Scan) {
      exists found :: AsGrid().BestFound(found) && Reports(found, r)
    }

    /** The first profitable route in pool order, or else the best one. */
    ghost predicate EarlyOutcome(r: Scan) {
      exists found :: AsGrid().EarlyFound(found) && Reports(found, r)
    }
  }

  function SearchOn(
    pools: seq<KnownPool>, rpc: Rpc, tokenMint: string, tokenSymbol: string, trade: Trade, cost: Costs.CostModel)
    : Search
  {
    Search(
      pools, tokenMint, tokenSymbol, trade,
      (pool: KnownPool, mint: string, amount: U64) => QuoteSwap(pool, mint, amount, rpc),
      (output: U64) => cost.Compute(trade, output))
  }

  lemma ReportedInput(
    pools: seq<KnownPool>, rpc: Rpc, tokenMint: string, tokenSymbol: string, trade: Trade, cost: Costs.CostModel,
    r: Scan)
    requires var s := SearchOn(pools, rpc, tokenMint, tokenSymbol, trade, cost); s.BestOutcome(r) || s.EarlyOutcome(r)
    ensures r.Success? ==> r.value.inputLamports == trade
  {
  }

  /** With fewer than two DEXs no pair is admissible. */
  lemma OneDexNoRoute(s: Search)
    requires |set p | p in s.pools :: p.dex| < 2
    ensures s.AsGrid().BestFound(None) && s.AsGrid().EarlyFound(None)
  {
    var dexes := set p | p in s.pools :: p.dex;
    forall p | s.Admissible(p)
      ensures false
    {
      var a, b := s.pools[p.0], s.pools[p.1];
      assert a in s.pools && b in s.pools;
      TwoElements(a.dex, b.dex, dexes);
    }
  }

  lemma TwoElements<T>(a: T, b: T, s: set<T>)
    requires a in s && b in s && a != b
    ensures 2 <= |s|
  {
    assert |{a, b}| == 2;
    assert s == {a, b} + (s - {a, b});
  }

  /** Rows without a buy quote hold no admissible pair. */
  lemma EmptyRows(s: Search, buyQuotes: seq<Entry>, k: nat)
    requires Quoted(buyQuotes, s.Quotes(), |s.pools|) && k <= |buyQuotes|
    ensures forall p | s.AsGrid().ok(p) ::
              Row(buyQuotes, k, |s.pools|) <= p.0 || (0 < k && p.0 <= buyQuotes[k - 1].row)
  {
    forall p | s.Admissible(p)
      ensures Row(buyQuotes, k, |s.pools|) <= p.0 || (0 < k && p.0 <= buyQuotes[k - 1].row)
    {
      if p.0 < Row(buyQuotes, k, |s.pools|) && (0 < k ==> buyQuotes[k - 1].row < p.0) {
        RowsBetweenAreEmpty(buyQuotes, s.Quotes(), k, p.0);
      }
    }
  }

  /** Visiting one pair keeps the pair and the route in step, and the best of the pairs so far. */
  lemma VisitStep(s: Search, at: Option<Pair>, best: Option<CrossVenueResult>, here: Pair)
    requires s.UnderWay(at, best, here)
    ensures s.UnderWay(s.BetterAt(at, here), s.BetterRoute(best, here), (here.0, here.1 + 1))
    ensures s.AsGrid().NoProfitBefore(here) && (s.Admissible(here) ==> !s.Route(here).profitable) ==>
              s.AsGrid().NoProfitBefore((here.0, here.1 + 1))
  {
    Visit(s.AsGrid(), at, here);
  }

  /** The buy quotes that are not empty, one pool at a time. */
  method QuoteEach(s: Search) returns (buyQuotes: seq<Entry>)
    ensures buyQuotes == Rows(s.Quotes(), |s.pools|)
  {
    ghost var all := s.Quotes();
    buyQuotes := [];
    for i := 0 to |s.pools|
      invariant buyQuotes == Rows(all, i)
    {
      var tokens := OutputOf(s.quote(s.pools[i], WSOL_MINT, s.trade));
      if 0 < tokens {
        buyQuotes := buyQuotes + [Entry(i, tokens)];
      }
    }
  }

  /** The same list from one batched fetch. */
  method QuoteBatched(s: Search, rpc: Rpc) returns (buyQuotes: seq<Entry>)
    requires forall i | 0 <= i < |s.pools| ::
               s.quote(s.pools[i], WSOL_MINT, s.trade) == QuoteSwap(s.pools[i], WSOL_MINT, s.trade, rpc)
    ensures buyQuotes == Rows(s.Quotes(), |s.pools|)
  {
    var quotes := QuoteAllPools(s.pools, WSOL_MINT, s.trade, rpc);
    ghost var all := s.Quotes();
    buyQuotes := [];
    for i := 0 to |quotes|
      invariant buyQuotes == Rows(all, i)
    {
      var tokens := OutputOf(quotes[i]);
      AgreedOutput(quotes[i], s.quote(s.pools[i], WSOL_MINT, s.trade));
      if 0 < tokens {
        buyQuotes := buyQuotes + [Entry(i, tokens)];
      }
    }
  }

  lemma AgreedOutput(batched: Quote, single: Quote)
    requires Agrees(batched, single)
    ensures OutputOf(batched) == OutputOf(single)
  {
  }

  /** The body of both scans: the route over one pair of pools, unless the pair is skipped. */
  method VisitPair(s: Search, buyIdx: nat, sellIdx: nat, tokensReceived: U64) returns (route: Option<CrossVenueResult>)
    requires buyIdx < |s.pools| && sellIdx < |s.pools| && 0 < tokensReceived == s.Tokens(buyIdx)
    ensures route == if s.Admissible((buyIdx, sellIdx)) then Some(s.Route((buyIdx, sellIdx))) else None
  {
    var buyPool, sellPool := s.pools[buyIdx], s.pools[sellIdx];
    if sellIdx == buyIdx || sellPool.dex == buyPool.dex {
      return None;
    }
    var solOut := OutputOf(s.quote(sellPool, s.tokenMint, tokensReceived));
    if solOut == 0 || solOut > s.trade * 5 {
      return None;
    }
    var econ := s.economics(solOut);
    return Some(CrossVenue(s.tokenMint, s.tokenSymbol, buyPool, sellPool, tokensReceived, econ));
  }

  lemma FirstRound(s: Search, buyQuotes: seq<Entry>)
    requires buyQuotes == Rows(s.Quotes(), |s.pools|)
    ensures s.UnderWay(None, None, (Row(buyQuotes, 0, |s.pools|), 0))
    ensures s.AsGrid().NoProfitBefore((Row(buyQuotes, 0, |s.pools|), 0))
  {
    RowsAreQuoted(s.Quotes(), |s.pools|);
    EmptyRows(s, buyQuotes, 0);
    FirstRow(s.AsGrid(), Row(buyQuotes, 0, |s.pools|));
  }

  /** What a round of the search starts from. */
  lemma Round(s: Search, buyQuotes: seq<Entry>, k: nat)
    requires buyQuotes == Rows(s.Quotes(), |s.pools|) && k < |buyQuotes|
    ensures buyQuotes[k].row < |s.pools| && 0 < buyQuotes[k].quote == s.Tokens(buyQuotes[k].row)
  {
    RowsAreQuoted(s.Quotes(), |s.pools|);
  }

  lemma NextRound(s: Search, buyQuotes: seq<Entry>, k: nat, at: Option<Pair>, best: Option<CrossVenueResult>)
    requires buyQuotes == Rows(s.Quotes(), |s.pools|) && k < |buyQuotes|
    requires s.UnderWay(at, best, (buyQuotes[k].row, |s.pools|))
    ensures s.UnderWay(at, best, (Row(buyQuotes, k + 1, |s.pools|), 0))
    ensures s.AsGrid().NoProfitBefore((buyQuotes[k].row, |s.pools|)) ==>
              s.AsGrid().NoProfitBefore((Row(buyQuotes, k + 1, |s.pools|), 0))
  {
    RowsAreQuoted(s.Quotes(), |s.pools|);
    EmptyRows(s, buyQuotes, k + 1);
    NextRow(s.AsGrid(), at, buyQuotes[k].row, Row(buyQuotes, k + 1, |s.pools|));
  }

  lemma LastRound(s: Search, at: Option<Pair>, best: Option<CrossVenueResult>)
    requires s.UnderWay(at, best, (|s.pools|, 0))
    ensures var r := if best.Some? then Success(best.value) else Failure(NoRoute);
            && s.BestOutcome(r)
            && (s.AsGrid().NoProfitBefore((|s.pools|, 0)) ==> s.EarlyOutcome(r))
  {
    LastRow(s.AsGrid(), at);
    assert s.Reports(at, if best.Some? then Success(best.value) else Failure(NoRoute));
  }

  /** All pairs of a buy quote and a pool, keeping the first route of maximal net profit. */
  method SearchAll(s: Search, buyQuotes: seq<Entry>) returns (r: Scan)
    requires buyQuotes == Rows(s.Quotes(), |s.pools|)
    ensures s.BestOutcome(r) && (r.Failure? ==> r.error == NoRoute)
  {
    var best: Option<CrossVenueResult> := None;
    ghost var at: Option<Pair> := None;
    FirstRound(s, buyQuotes);

    for k := 0 to |buyQuotes|
      invariant s.UnderWay(at, best, (Row(buyQuotes, k, |s.pools|), 0))
    {
      Round(s, buyQuotes, k);
      var Entry(buyIdx, tokensReceived) := buyQuotes[k];
      for sellIdx := 0 to |s.pools|
        invariant s.UnderWay(at, best, (buyIdx, sellIdx))
      {
        var route := VisitPair(s, buyIdx, sellIdx, tokensReceived);
        VisitStep(s, at, best, (buyIdx, sellIdx));
        at := s.BetterAt(at, (buyIdx, sellIdx));
        if route.Some? && (best.None? || route.value.netProfitLamports > best.value.netProfitLamports) {
          best := route;
        }
      }
      NextRound(s, buyQuotes, k, at, best);
    }
    LastRound(s, at, best);
    r := if best.Some? then Success(best.value) else Failure(NoRoute);
  }

  /** The same pairs, stopping at the first that nets a profit. */
  method SearchUntilProfit(s: Search, buyQuotes: seq<Entry>) returns (r: Scan)
    requires buyQuotes == Rows(s.Quotes(), |s.pools|)
    ensures s.EarlyOutcome(r) && (r.Failure? ==> r.error == NoRoute)
  {
    var best: Option<CrossVenueResult> := None;
    ghost var at: Option<Pair> := None;
    FirstRound(s, buyQuotes);

    for k := 0 to |buyQuotes|
      invariant s.Fruitless(at, best, (Row(buyQuotes, k, |s.pools|), 0))
    {
      Round(s, buyQuotes, k);
      var Entry(buyIdx, tokensReceived) := buyQuotes[k];
      for sellIdx := 0 to |s.pools|
        invariant s.Fruitless(at, best, (buyIdx, sellIdx))
      {
        var route := VisitPair(s, buyIdx, sellIdx, tokensReceived);
        if route.Some? && route.value.profitable {
          StopHere(s, (buyIdx, sellIdx));
          return Success(route.value);
        }
        VisitStep(s, at, best, (buyIdx, sellIdx));
        at := s.BetterAt(at, (buyIdx, sellIdx));
        if route.Some? && (best.None? || route.value.netProfitLamports > best.value.netProfitLamports) {
          best := route;
        }
      }
      NextRound(s, buyQuotes, k, at, best);
    }
    LastRound(s, at, best);
    r := if best.Some? then Success(best.value) else Failure(NoRoute);
  }

  lemma StopHere(s: Search, p: Pair)
    requires s.Admissible(p) && s.Route(p).profitable
    requires s.AsGrid().NoProfitBefore(p)
    ensures s.EarlyOutcome(Success(s.Route(p)))
  {
    assert s.AsGrid().EarlyFound(Some(p)) && s.Reports(Some(p), Success(s.Route(p)));
  }

  /** Both legs of a trade into a pool and straight back can be made, and pass the 5x check. */
  predicate CanTradeBack(s: Search, pool: KnownPool) {
    var tokens := OutputOf(s.quote(pool, WSOL_MINT, s.trade));
    0 < tokens
    && var back := s.quote(pool, s.tokenMint, tokens);
       back.Success? && back.value.outputAmount <= s.trade * 5
  }

  /** The result of trading into a pool and straight back. */
  predicate IsRoundTrip(s: Search, pool: KnownPool, r: CrossVenueResult) {
    var tokens := OutputOf(s.quote(pool, WSOL_MINT, s.trade));
    && r.buyPool == r.sellPool == pool
    && r.tokensReceived == tokens
    && r == CrossVenue(s.tokenMint, s.tokenSymbol, pool, pool, tokens,
                       s.economics(OutputOf(s.quote(pool, s.tokenMint, tokens))))
  }

  /** The first leg that fails, is empty, or pays too much. */
  function WhyNoTrip(s: Search, pool: KnownPool): Error {
    var there := s.quote(pool, WSOL_MINT, s.trade);
    if there.Failure? then there.error
    else if there.value.outputAmount == 0 then ZeroFirstLeg
    else
      var back := s.quote(pool, s.tokenMint, there.value.outputAmount);
      if back.Failure? then back.error else SanityFailed
  }

  /**
    A same-pool back-run succeeds exactly on a sell trigger whose DEX has a pool
    that can be traded into and out of; the pool is the first one of that DEX.
   */
  predicate IsBackrun(s: Search, triggerDex: Dex, direction: SwapDirection, r: Scan) {
    match Registry.FirstOn(s.pools, triggerDex)
    case None => r == Failure(NoPoolOnTriggerDex)
    case Some(pool) =>
      && (r.Success? <==> direction.Sell? && CanTradeBack(s, pool))
      && (r.Failure? ==> r.error == if direction.Buy? then BuyTriggerSkipped else WhyNoTrip(s, pool))
      && (r.Success? ==> IsRoundTrip(s, pool, r.value))
  }

  method TradeBack(s: Search, triggerDex: Dex, direction: SwapDirection) returns (r: Scan)
    ensures IsBackrun(s, triggerDex, direction, r)
  {
    var found := Registry.FirstOn(s.pools, triggerDex);
    if found.None? {
      return Failure(NoPoolOnTriggerDex);
    }
    if direction == Buy {
      return Failure(BuyTriggerSkipped);
    }
    var pool := found.value;
    var leg1 := s.quote(pool, WSOL_MINT, s.trade);
    if leg1.Failure? {
      return Failure(leg1.error);
    }
    var tokensReceived := leg1.value.outputAmount;
    if tokensReceived == 0 {
      return Failure(ZeroFirstLeg);
    }
    var leg2 := s.quote(pool, s.tokenMint, tokensReceived);
    if leg2.Failure? {
      return Failure(leg2.error);
    }
    var solOut := leg2.value.outputAmount;
    if solOut > s.trade * 5 {
      return Failure(SanityFailed);
    }
    var econ := s.economics(solOut);
    return Success(CrossVenue(s.tokenMint, s.tokenSymbol, pool, pool, tokensReceived, econ));
  }

  class LocalScanner {
    var poolRegistry: Registry.Registry
    const costModel: Costs.CostModel

    constructor (costModel: Costs.CostModel)
      ensures poolRegistry == map[] && this.costModel == costModel
    {
      poolRegistry := map[];
      this.costModel := costModel;
    }

    method RegisterPools(tokenMint: string, pools: seq<KnownPool>)
      modifies this`poolRegistry
      ensures poolRegistry == Registry.AfterRegister(old(poolRegistry), tokenMint, pools)
    {
      if pools != [] {
        poolRegistry := poolRegistry[tokenMint := pools];
      }
    }

    /** `discovered` is what DexScreener discovery would return now. */
    method GetOrDiscoverPools(tokenMint: string, discovered: Registry.Lookup) returns (pools: Registry.Lookup)
      modifies this`poolRegistry
      ensures pools == Registry.LookupAnswer(old(poolRegistry), tokenMint, discovered)
      ensures poolRegistry == Registry.AfterLookup(old(poolRegistry), tokenMint, discovered)
    {
      if tokenMint in poolRegistry && poolRegistry[tokenMint] != [] {
        var unique := Registry.DedupByDex(poolRegistry[tokenMint]);
        return Success(unique);
      }
      if discovered.Failure? {
        return discovered;
      }
      var unique := Registry.DedupByDex(discovered.value);
      if unique != [] {
        poolRegistry := poolRegistry[tokenMint := unique];
      }
      return Success(unique);
    }

    /** The periodic scan: the best route over all pairs of pools. */
    method ScanToken(tokenMint: string, tokenSymbol: string, discovered: Registry.Lookup, rpc: Rpc) returns (r: Scan)
      modifies this`poolRegistry
      ensures poolRegistry == Registry.AfterLookup(old(poolRegistry), tokenMint, discovered)
      ensures match Registry.LookupAnswer(old(poolRegistry), tokenMint, discovered)
              case Failure(error) => r == Failure(error)
              case Success(pools) =>
                && SearchOn(pools, rpc, tokenMint, tokenSymbol, SCAN_LAMPORTS, costModel).BestOutcome(r)
                && (r.Failure? ==> r.error == if |set p | p in pools :: p.dex| < 2 then TooFewDexes else NoRoute)
      ensures r.Success? ==> r.value.inputLamports == 1_000_000_000
    {
      var lookup := GetOrDiscoverPools(tokenMint, discovered);
      if lookup.Failure? {
        return Failure(lookup.error);
      }
      var pools := lookup.value;
      var s := SearchOn(pools, rpc, tokenMint, tokenSymbol, SCAN_LAMPORTS, costModel);
      if |set p | p in pools :: p.dex| < 2 {
        OneDexNoRoute(s);
        return Failure(TooFewDexes);
      }

      var buyQuotes := QuoteEach(s);
      r := SearchAll(s, buyQuotes);
      ReportedInput(pools, rpc, tokenMint, tokenSymbol, SCAN_LAMPORTS, costModel, r);
    }

    /** The scan a forge signal triggers: 20% of the signal, stopping at the first profit. */
    method ScanTriggered(
      tokenMint: string, tokenSymbol: string, signalSol: real, discovered: Registry.Lookup, rpc: Rpc) returns (r: Scan)
      modifies this`poolRegistry
      ensures poolRegistry == Registry.AfterLookup(old(poolRegistry), tokenMint, discovered)
      ensures match Registry.LookupAnswer(old(poolRegistry), tokenMint, discovered)
              case Failure(error) => r == Failure(error)
              case Success(pools) =>
                && SearchOn(pools, rpc, tokenMint, tokenSymbol,
                            TradeLamports(signalSol, 0.2, 0.1, 2.0), costModel).EarlyOutcome(r)
                && (r.Failure? ==> r.error == if |set p | p in pools :: p.dex| < 2 then TooFewDexes else NoRoute)
      ensures r.Success? ==>
                Clamped(r.value.inputLamports, signalSol * 0.2 * 1_000_000_000.0, 100_000_000, 2_000_000_000)
    {
      var trade := TradeLamports(signalSol, 0.2, 0.1, 2.0);
      TradeIs(signalSol, 0.2, 0.1, 2.0, 100_000_000, 2_000_000_000);
      var lookup := GetOrDiscoverPools(tokenMint, discovered);
      if lookup.Failure? {
        return Failure(lookup.error);
      }
      var pools := lookup.value;
      var s := SearchOn(pools, rpc, tokenMint, tokenSymbol, trade, costModel);
      if |set p | p in pools :: p.dex| < 2 {
        OneDexNoRoute(s);
        return Failure(TooFewDexes);
      }
      var buyQuotes := QuoteBatched(s, rpc);
      r := SearchUntilProfit(s, buyQuotes);
      ReportedInput(pools, rpc, tokenMint, tokenSymbol, trade, costModel, r);
    }

    /** A counter-trade of 10% of the signal on the triggering pool itself. */
    method ScanSamePoolBackrun(
      tokenMint: string, tokenSymbol: string, triggerDex: Dex, direction: SwapDirection, signalSol: real,
      discovered: Registry.Lookup, rpc: Rpc) returns (r: Scan)
      modifies this`poolRegistry
      ensures poolRegistry == Registry.AfterLookup(old(poolRegistry), tokenMint, discovered)
      ensures match Registry.LookupAnswer(old(poolRegistry), tokenMint, discovered)
              case Failure(error) => r == Failure(error)
              case Success(pools) =>
                IsBackrun(SearchOn(pools, rpc, tokenMint, tokenSymbol,
                                   TradeLamports(signalSol, 0.1, 0.05, 1.0), costModel),
                          triggerDex, direction, r)
      ensures r.Success? ==>
                Clamped(r.value.inputLamports, signalSol * 0.1 * 1_000_000_000.0, 50_000_000, 1_000_000_000)
    {
      var trade := TradeLamports(signalSol, 0.1, 0.05, 1.0);
      TradeIs(signalSol, 0.1, 0.05, 1.0, 50_000_000, 1_000_000_000);
      var lookup := GetOrDiscoverPools(tokenMint, discovered);
      if lookup.Failure? {
        return Failure(lookup.error);
      }
      r := TradeBack(SearchOn(lookup.value, rpc, tokenMint, tokenSymbol, trade, costModel), triggerDex, direction);
    }
  }
}
