/**
  What the detector reports of the routes whose spread is positive.  It examines one
  pair only, the cheapest and the priciest fresh venue, and venues differ in their
  fees: with three venues the pair examined need not be the one worth reporting.
 */
module Reporting {
  import opened MachineInts
  import opened Wrappers
  import opened Types
  import opened Prices
  import opened Graph = PriceGraph
  import opened Detector
  import opened RouteFilter
  import opened OrcaFees
  import opened GridSearch
  import opened Scanner
  import opened SamePool
  import Amm
  import AmmMachine
  import FeeFilter
  import Results = ScanResults
  import Quoter
  import Costs = CostModel

  predicate Positive(listing: Venues) {
    forall v | v in listing :: listing[v].priceUsd > 0.0
  }

  predicate EqualFees(listing: Venues) {
    forall u, v | u in listing && v in listing :: listing[u].dex.FeeBps() == listing[v].dex.FeeBps()
  }

  /** One route either way, or the same fee everywhere. */
  predicate FairSelection(listing: Venues) {
    |listing| <= 2 || EqualFees(listing)
  }

  // ----- the pair examined against any other -----

  lemma ThreeKeys(listing: Venues, a: string, b: string, c: string)
    requires a in listing && b in listing && c in listing && a != b && a != c && b != c
    ensures 3 <= |listing|
  {
    var three := {a, b, c};
    assert |three| == 3;
    assert listing.Keys == three + (listing.Keys - three);
  }

  lemma ThirdKey(listing: Venues, a: string, b: string) returns (c: string)
    requires 3 <= |listing| && a in listing && b in listing
    ensures c in listing && c != a && c != b
  {
    var rest := listing.Keys - {a};
    assert |rest| == |listing| - 1;
    assert |rest - {b}| >= |rest| - 1;
    c :| c in rest - {b};
  }

  lemma PositiveGross(p: real, q: real, fees: real)
    requires p > 0.0 && fees > 0.0 && (q - p) / p * 10_000.0 >= fees
    ensures p < q
  {
    var r := (q - p) / p;
    assert r * p == q - p;
    assert r > 0.0;
    assert r * p > 0.0;
  }

  lemma FeesArePositive(dex: Dex)
    ensures dex.FeeBps() > 0.0
  {
  }

  /** Where the selection is fair, no pair with a spread that is not negative beats the pair examined. */
  lemma ExaminedPairIsBest(listing: Venues, v: string, w: string, a: string, b: string)
    requires Positive(listing) && FairSelection(listing) && Extremes(listing, v, w) && a in listing && b in listing
    requires SpreadOf(listing[a], listing[b]).net.AtLeast(0.0)
    ensures v != w && SpreadOf(listing[a], listing[b]).net.Finite? && SpreadOf(listing[v], listing[w]).net.Finite?
    ensures SpreadOf(listing[a], listing[b]).net.bps <= SpreadOf(listing[v], listing[w]).net.bps
  {
    var p, q := listing[a].priceUsd, listing[b].priceUsd;
    FeesArePositive(listing[a].dex);
    FeesArePositive(listing[b].dex);
    PositiveGross(p, q, listing[a].dex.FeeBps() + listing[b].dex.FeeBps());
    ReportIsMaximal(listing, v, w, a, b);
    if !EqualFees(listing) {
      if v != a && v != b {
        ThreeKeys(listing, v, a, b);
      }
      if w != a && w != b {
        ThreeKeys(listing, w, a, b);
      }
    }
  }

  /** So the pair examined qualifies whenever any pair does. */
  lemma ExaminedPairQualifies(listing: Venues, v: string, w: string, a: string, b: string, minSpreadBps: real)
    requires WellKeyed(listing) && Positive(listing) && FairSelection(listing)
    requires Extremes(listing, v, w) && a in listing && b in listing
    requires SpreadOf(listing[a], listing[b]).net.AtLeast(0.0)
    requires SpreadOf(listing[a], listing[b]).net.AtLeast(minSpreadBps)
    ensures Qualifies(listing[v], listing[w], minSpreadBps)
  {
    ExaminedPairIsBest(listing, v, w, a, b);
    VenueKeyInjective(listing[v], listing[w]);
  }

  // ----- unequal fees -----

  function Repriced(listing: Venues, prices: map<string, real>): Venues
    requires prices.Keys == listing.Keys
  {
    map v | v in listing :: listing[v].(priceUsd := prices[v])
  }

  lemma RepricedKeepsKeys(listing: Venues, prices: map<string, real>)
    requires prices.Keys == listing.Keys
    ensures Repriced(listing, prices).Keys == listing.Keys && |Repriced(listing, prices)| == |listing|
    ensures WellKeyed(listing) ==> WellKeyed(Repriced(listing, prices))
    ensures FairSelection(listing) ==> FairSelection(Repriced(listing, prices))
  {
    assert Repriced(listing, prices).Keys == listing.Keys;
  }

  /** At no positive prices does the pair examined fall short while another pair of these venues qualifies. */
  ghost predicate NeverHides(listing: Venues, minSpreadBps: real) {
    forall prices: map<string, real>, v: string, w: string, a: string, b: string |
      && prices.Keys == listing.Keys
      && Positive(Repriced(listing, prices)) && Extremes(Repriced(listing, prices), v, w)
      && a in listing && b in listing
      && Qualifies(Repriced(listing, prices)[a], Repriced(listing, prices)[b], minSpreadBps) ::
        Qualifies(Repriced(listing, prices)[v], Repriced(listing, prices)[w], minSpreadBps)
  }

  /** Prices of 1, 1 + step and top: the middle one sells at exactly `least` net, the cheapest at less. */
  lemma ThreePrices(high: real, low: real, third: real, least: real) returns (step: real, top: real)
    requires high > low > 0.0 && third > 0.0 && least >= 0.0
    ensures step > 0.0 && top > 1.0 + step
    ensures (top - (1.0 + step)) / (1.0 + step) * 10_000.0 - (low + third) == least
    ensures (top - 1.0) / 1.0 * 10_000.0 - (high + third) < least
  {
    var m := least + low + third;
    step := (high - low) / 2.0 / (10_000.0 + m);
    assert step * (10_000.0 + m) == (high - low) / 2.0;
    assert step > 0.0;
    var middle := 1.0 + step;
    top := middle + middle * (m / 10_000.0);
    assert middle * (m / 10_000.0) > 0.0;
    assert (top - middle) / middle == m / 10_000.0;
    assert (top - 1.0) * 10_000.0 == step * (10_000.0 + m) + m;
  }

  /** Two venues with unequal fees and a third one: prices at which the selection hides the better pair. */
  lemma UnequalFeesHide(listing: Venues, minSpreadBps: real, h: string, l: string, t: string)
    requires WellKeyed(listing) && 0.0 <= minSpreadBps && h in listing && l in listing && t in listing
    requires h != t && l != t && listing[h].dex.FeeBps() > listing[l].dex.FeeBps()
    ensures !NeverHides(listing, minSpreadBps)
  {
    FeesArePositive(listing[l].dex);
    FeesArePositive(listing[t].dex);
    var step, top := ThreePrices(
      listing[h].dex.FeeBps(), listing[l].dex.FeeBps(), listing[t].dex.FeeBps(), minSpreadBps);
    var prices := HidingPrices(listing, h, t, 1.0 + step, top);
    var quotes := Repriced(listing, prices);
    HidingQuotes(listing, h, t, 1.0 + step, top);
    MiddleQualifies(quotes, h, l, t, 1.0 + step, top, minSpreadBps);
    HiddenAt(listing, prices, minSpreadBps, h, t, l, t);
  }

  function HidingPrices(listing: Venues, h: string, t: string, middle: real, top: real): map<string, real> {
    map u | u in listing :: if u == h then 1.0 else if u == t then top else middle
  }

  lemma HidingQuotes(listing: Venues, h: string, t: string, middle: real, top: real)
    requires WellKeyed(listing) && h in listing && t in listing && h != t && 1.0 < middle < top
    ensures HidingPrices(listing, h, t, middle, top).Keys == listing.Keys
    ensures var quotes := Repriced(listing, HidingPrices(listing, h, t, middle, top));
            && quotes.Keys == listing.Keys && WellKeyed(quotes) && Positive(quotes) && Extremes(quotes, h, t)
            && (forall u | u in quotes :: quotes[u].dex == listing[u].dex
                  && quotes[u].priceUsd == if u == h then 1.0 else if u == t then top else middle)
  {
    var prices := HidingPrices(listing, h, t, middle, top);
    RepricedKeepsKeys(listing, prices);
    ExtremesOfThree(listing, Repriced(listing, prices), h, t, 1.0, middle, top);
  }

  lemma MiddleQualifies(
    quotes: Venues, h: string, l: string, t: string, middle: real, top: real, minSpreadBps: real)
    requires WellKeyed(quotes) && h in quotes && l in quotes && t in quotes && l != t && middle > 0.0
    requires quotes[h].priceUsd == 1.0 && quotes[l].priceUsd == middle && quotes[t].priceUsd == top
    requires (top - middle) / middle * 10_000.0 - (quotes[l].dex.FeeBps() + quotes[t].dex.FeeBps()) == minSpreadBps
    requires (top - 1.0) / 1.0 * 10_000.0 - (quotes[h].dex.FeeBps() + quotes[t].dex.FeeBps()) < minSpreadBps
    ensures Qualifies(quotes[l], quotes[t], minSpreadBps) && !Qualifies(quotes[h], quotes[t], minSpreadBps)
  {
    VenueKeyInjective(quotes[l], quotes[t]);
    NetOf(quotes[l], quotes[t], middle, top);
    NetOf(quotes[h], quotes[t], 1.0, top);
  }

  lemma ExtremesOfThree(
    listing: Venues, quotes: Venues, h: string, t: string, bottom: real, middle: real, top: real)
    requires quotes.Keys == listing.Keys && h in quotes && t in quotes && h != t && bottom < middle < top
    requires forall u | u in quotes :: quotes[u].priceUsd == if u == h then bottom else if u == t then top else middle
    ensures Extremes(quotes, h, t)
  {
  }

  lemma NetOf(buy: PriceQuote, sell: PriceQuote, p: real, q: real)
    requires buy.priceUsd == p && p > 0.0 && sell.priceUsd == q
    ensures SpreadOf(buy, sell).net == Finite((q - p) / p * 10_000.0 - (buy.dex.FeeBps() + sell.dex.FeeBps()))
  {
  }

  lemma HiddenAt(
    listing: Venues, prices: map<string, real>, minSpreadBps: real, v: string, w: string, a: string, b: string)
    requires prices.Keys == listing.Keys && Positive(Repriced(listing, prices)) && a in listing && b in listing
    requires Extremes(Repriced(listing, prices), v, w)
    requires Qualifies(Repriced(listing, prices)[a], Repriced(listing, prices)[b], minSpreadBps)
    requires !Qualifies(Repriced(listing, prices)[v], Repriced(listing, prices)[w], minSpreadBps)
    ensures !NeverHides(listing, minSpreadBps)
  {
  }

  /**
    Whatever the prices, the pair examined qualifies whenever some pair of the fresh
    venues does, exactly when there are at most two venues or all charge the same fee.
   */
  lemma NeverHidesIff(listing: Venues, minSpreadBps: real)
    requires WellKeyed(listing) && 0.0 <= minSpreadBps
    ensures NeverHides(listing, minSpreadBps) <==> FairSelection(listing)
  {
    if FairSelection(listing) {
      forall prices: map<string, real>, v: string, w: string, a: string, b: string |
        && prices.Keys == listing.Keys
        && Positive(Repriced(listing, prices)) && Extremes(Repriced(listing, prices), v, w)
        && a in listing && b in listing
        && Qualifies(Repriced(listing, prices)[a], Repriced(listing, prices)[b], minSpreadBps)
        ensures Qualifies(Repriced(listing, prices)[v], Repriced(listing, prices)[w], minSpreadBps)
      {
        RepricedKeepsKeys(listing, prices);
        ExaminedPairQualifies(Repriced(listing, prices), v, w, a, b, minSpreadBps);
      }
    } else {
      var u, v :| u in listing && v in listing && listing[u].dex.FeeBps() != listing[v].dex.FeeBps();
      var t := ThirdKey(listing, u, v);
      if listing[u].dex.FeeBps() > listing[v].dex.FeeBps() {
        UnequalFeesHide(listing, minSpreadBps, u, v, t);
      } else {
        UnequalFeesHide(listing, minSpreadBps, v, u, t);
      }
    }
  }

  // ----- what is reported of a route -----

  /** What the memory holds for a key was once reported. */
  lemma {:induction false} MemoryWasReported(run: seq<Sighting>, key: string, minSpreadBps: real) returns (i: nat)
    requires key in MemoryAfter(run, minSpreadBps)
    ensures i < |run| && EmitsAt(run, i, minSpreadBps)
    ensures run[i].Key() == key && MemoryAfter(run, minSpreadBps)[key] == run[i].Spread()
    decreases |run|
  {
    var n := |run| - 1;
    if EmitsAt(run, n, minSpreadBps) && run[n].Key() == key {
      i := n;
    } else {
      i := MemoryWasReported(run[..n], key, minSpreadBps);
      assert run[..n][..i] == run[..i];
    }
  }

  /** Reported now, or before, on the same DEX pair and within 5 bps of what is seen now. */
  ghost predicate Reported(
    before: seq<Sighting>, after: seq<Sighting>, opportunity: Option<Opportunity>, minSpreadBps: real)
  {
    && |after| == |before| + 1
    && var last := after[|before|];
       || opportunity.Some?
       || exists i | 0 <= i < |before| ::
            && EmitsAt(before, i, minSpreadBps) && before[i].Key() == last.Key()
            && last.Spread().Repeats(before[i].Spread())
  }

  lemma QualifyingIsReported(before: seq<Sighting>, s: Sighting, opportunity: Option<Opportunity>, minSpreadBps: real)
    requires Qualifies(s.buy, s.sell, minSpreadBps)
    requires opportunity.Some? == EmitsAt(before + [s], |before|, minSpreadBps)
    ensures Reported(before, before + [s], opportunity, minSpreadBps)
  {
    MemoryOfLonger(before, s, minSpreadBps);
    if opportunity.None? {
      var i := MemoryWasReported(before, s.Key(), minSpreadBps);
    }
  }

  /** What the detector is told about a venue is its price. */
  predicate Tells(q: PriceQuote, v: AnyVenue, tokenDecimals: nat, solUsd: real) {
    v.Valid() && q.dex == v.Dex() && q.priceUsd == v.PriceUsd(tokenDecimals, solUsd)
  }

  /**
    Of the fresh quotes, two tell the prices of the ends of a flagged route: where the
    selection is fair and the route's spread reaches the threshold, something at least
    as good is reported now, or was, within 5 bps.
   */
  lemma FlaggedRouteIsReported(
    listing: Venues, mint: string, before: seq<Sighting>, after: seq<Sighting>, opportunity: Option<Opportunity>,
    minSpreadBps: real, a: string, b: string, from: AnyVenue, to: AnyVenue, tokenDecimals: nat, solUsd: real)
    requires WellKeyed(listing) && Positive(listing) && FairSelection(listing)
    requires Examined(listing, mint, before, after, opportunity, minSpreadBps)
    requires a in listing && Tells(listing[a], from, tokenDecimals, solUsd)
    requires b in listing && Tells(listing[b], to, tokenDecimals, solUsd)
    requires Flagged(from, to, tokenDecimals, solUsd) && Spread(from, to, tokenDecimals, solUsd).AtLeast(minSpreadBps)
    ensures Reported(before, after, opportunity, minSpreadBps)
  {
    RouteHasTwoEnds(listing, a, b);
    var v, w :| && Extremes(listing, v, w)
                && after == before + [Sighting(mint, listing[v], listing[w])]
                && opportunity == (if EmitsAt(after, |after| - 1, minSpreadBps)
                                   then Some(Report(mint, listing[v], listing[w])) else None);
    ExaminedPairQualifies(listing, v, w, a, b, minSpreadBps);
    QualifyingIsReported(before, Sighting(mint, listing[v], listing[w]), opportunity, minSpreadBps);
  }

  /** A spread that is not negative joins two different venues. */
  lemma RouteHasTwoEnds(listing: Venues, a: string, b: string)
    requires Positive(listing) && a in listing && b in listing
    requires SpreadOf(listing[a], listing[b]).net.AtLeast(0.0)
    ensures 2 <= |listing|
  {
    FeesArePositive(listing[a].dex);
    FeesArePositive(listing[b].dex);
    PositiveGross(listing[a].priceUsd, listing[b].priceUsd, listing[a].dex.FeeBps() + listing[b].dex.FeeBps());
    assert |{a, b}| == 2;
    assert listing.Keys == {a, b} + (listing.Keys - {a, b});
  }

  /** A route that returns more than it took, on different DEXs with sufficient Orca fees, is reported. */
  lemma GainingRouteIsReported(
    listing: Venues, mint: string, before: seq<Sighting>, after: seq<Sighting>, opportunity: Option<Opportunity>,
    minSpreadBps: real, a: string, b: string, from: AnyVenue, to: AnyVenue, amount: U64,
    tokenDecimals: nat, solUsd: real)
    requires WellKeyed(listing) && Positive(listing) && FairSelection(listing) && minSpreadBps <= 0.0
    requires Examined(listing, mint, before, after, opportunity, minSpreadBps)
    requires a in listing && Tells(listing[a], from, tokenDecimals, solUsd)
    requires b in listing && Tells(listing[b], to, tokenDecimals, solUsd)
    requires solUsd > 0.0 && DecimalsMatch(from, to, tokenDecimals)
    requires from.Dex() != to.Dex() && RatesSuffice(from, to) && amount < to.Sell(from.Buy(amount))
    ensures Reported(before, after, opportunity, minSpreadBps)
  {
    DifferentDexesAreFlagged(from, to, amount, tokenDecimals, solUsd);
    FlaggedRouteIsReported(
      listing, mint, before, after, opportunity, minSpreadBps, a, b, from, to, tokenDecimals, solUsd);
  }

  /** From the scanner's report to the detector's, on the same state. */
  lemma ProfitableRouteIsReported(
    s: Search, rpc: Quoter.Rpc, cost: Costs.CostModel, p: Pair, tokenDecimals: nat, solUsd: real,
    listing: Venues, mint: string, before: seq<Sighting>, after: seq<Sighting>, opportunity: Option<Opportunity>,
    minSpreadBps: real, a: string, b: string)
    requires cost.LossesStayLosses(s.trade) && solUsd > 0.0
    requires s == SearchOn(s.pools, rpc, s.tokenMint, s.tokenSymbol, s.trade, cost)
    requires s.Admissible(p) && s.Route(p).profitable
    requires s.tokenMint != WSOL_MINT && Oriented(s.pools[p.1], s.tokenMint, rpc)
    requires s.pools[p.0].dex.PumpFun? || s.pools[p.1].dex.PumpFun? ==> tokenDecimals == PUMPFUN_DECIMALS
    requires WellKeyed(listing) && Positive(listing) && FairSelection(listing) && minSpreadBps <= 0.0
    requires Examined(listing, mint, before, after, opportunity, minSpreadBps)
    requires var from, to := Results.VenueOf(s.pools[p.0], rpc), Results.VenueOf(s.pools[p.1], rpc);
             && from.Some? && to.Some?
             && a in listing && Tells(listing[a], from.value, tokenDecimals, solUsd)
             && b in listing && Tells(listing[b], to.value, tokenDecimals, solUsd)
             && (cost == Costs.DEFAULT || RatesSuffice(from.value, to.value))
    ensures Reported(before, after, opportunity, minSpreadBps)
  {
    var from, to := Results.VenueOf(s.pools[p.0], rpc).value, Results.VenueOf(s.pools[p.1], rpc).value;
    Results.ProfitableRouteIsFlagged(s, rpc, cost, p, tokenDecimals, solUsd);
    if cost == Costs.DEFAULT {
      Results.DefaultProfitableRouteIsFlagged(s, rpc, p, tokenDecimals, solUsd);
    }
    FlaggedRouteIsReported(
      listing, mint, before, after, opportunity, minSpreadBps, a, b, from, to, tokenDecimals, solUsd);
  }

  // ----- a gaining route that is not reported -----

  function CurveVenue(): AnyVenue {
    Reserves(FeeFilter.Venue(PumpFun, 1_000_000_000_000_000_000, 1_000_000_000_000_000_000))
  }

  function CheapVault(): AnyVenue {
    Reserves(FeeFilter.Venue(Raydium, 1_001_000_000_000_000_000, 1_000_000_000_000_000_000))
  }

  function DearVault(): AnyVenue {
    Reserves(FeeFilter.Venue(PumpSwap, 1_011_000_000_000_000_000, 1_000_000_000_000_000_000))
  }

  function QuoteFor(dex: Dex, price: real): PriceQuote {
    PriceQuote(dex, "token", "", price, 0.0, None, WebSocket, 0)
  }

  /** Their quotes: 1.000, 1.001 and 1.011 thousandths of a dollar. */
  function ThreeQuotes(): Venues {
    map["pumpfun" := QuoteFor(PumpFun, 0.001), "raydium" := QuoteFor(Raydium, 0.001001),
        "pumpswap" := QuoteFor(PumpSwap, 0.001011)]
  }

  lemma ThousandthScale()
    ensures FeeFilter.Scale(6, 1.0) == 0.001
  {
    assert Pow10(3) == 1_000.0;
    assert Pow10(6) == 1_000_000.0;
    assert Pow10(9) == 1_000_000_000.0;
  }

  lemma QuotesTell()
    ensures Tells(QuoteFor(PumpFun, 0.001), CurveVenue(), 6, 1.0)
    ensures Tells(QuoteFor(Raydium, 0.001001), CheapVault(), 6, 1.0)
    ensures Tells(QuoteFor(PumpSwap, 0.001011), DearVault(), 6, 1.0)
  {
    ThousandthScale();
    AnyPriceIsScaledRatio(CurveVenue(), 6, 1.0);
    AnyPriceIsScaledRatio(CheapVault(), 6, 1.0);
    AnyPriceIsScaledRatio(DearVault(), 6, 1.0);
  }

  const VAULT_TOKENS: U64 := 996_503_495

  lemma VaultRouteGains()
    ensures CheapVault().Valid() && DearVault().Valid()
    ensures 1_000_000_000 < DearVault().Sell(CheapVault().Buy(1_000_000_000))
  {
    AmmMachine.MachineSwapIsExactIff(1_001_000_000_000_000_000, 1_000_000_000_000_000_000, 1_000_000_000, 25);
    AmmMachine.MachineSwapIsExactIff(1_000_000_000_000_000_000, 1_011_000_000_000_000_000, VAULT_TOKENS, 25);
    assert CheapVault().Buy(1_000_000_000) == VAULT_TOKENS;
  }

  /** The pair examined is the curve and the dearer vault, 110 bps apart, for which 125 bps are estimated. */
  lemma NothingIsReported(v: string, w: string, memory: Memory)
    requires Extremes(ThreeQuotes(), v, w)
    ensures v == "pumpfun" && w == "pumpswap"
    ensures !Emits(memory, "token", ThreeQuotes()[v], ThreeQuotes()[w], 0.0)
  {
    var quotes := ThreeQuotes();
    assert quotes["pumpfun"].priceUsd == 0.001 && quotes["pumpswap"].priceUsd == 0.001011;
    assert (0.001011 - 0.001) / 0.001 * 10_000.0 == 110.0;
  }

  /** The route between the two vaults returns more than it took, and its spread is positive. */
  lemma VaultRouteIsFlagged()
    ensures WellKeyed(ThreeQuotes()) && Positive(ThreeQuotes())
    ensures Tells(ThreeQuotes()["raydium"], CheapVault(), 6, 1.0)
    ensures Tells(ThreeQuotes()["pumpswap"], DearVault(), 6, 1.0)
    ensures 1_000_000_000 < DearVault().Sell(CheapVault().Buy(1_000_000_000))
    ensures Flagged(CheapVault(), DearVault(), 6, 1.0)
  {
    QuotesTell();
    VaultRouteGains();
    DifferentDexesAreFlagged(CheapVault(), DearVault(), 1_000_000_000, 6, 1.0);
  }

  lemma ThreeOfThem()
    ensures |ThreeQuotes()| == 3
  {
    assert ThreeQuotes().Keys == {"pumpfun", "raydium", "pumpswap"};
  }

  /**
    With the curve as a third venue (`VaultRouteIsFlagged` is about the other two), the
    detector never reports anything at a threshold of zero, nor does it remember it.
   */
  lemma GainingRouteCanBeHidden(before: seq<Sighting>, after: seq<Sighting>, opportunity: Option<Opportunity>)
    requires Examined(ThreeQuotes(), "token", before, after, opportunity, 0.0)
    ensures opportunity == None && MemoryAfter(after, 0.0) == MemoryAfter(before, 0.0)
  {
    ThreeOfThem();
    var v, w :| && Extremes(ThreeQuotes(), v, w)
                && after == before + [Sighting("token", ThreeQuotes()[v], ThreeQuotes()[w])]
                && opportunity == (if EmitsAt(after, |after| - 1, 0.0)
                                   then Some(Report("token", ThreeQuotes()[v], ThreeQuotes()[w])) else None);
    NothingIsReported(v, w, MemoryAfter(before, 0.0));
    MemoryOfLonger(before, Sighting("token", ThreeQuotes()[v], ThreeQuotes()[w]), 0.0);
  }
}
