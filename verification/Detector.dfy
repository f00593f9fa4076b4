/** The spread detector and its dedup memory, crates/arb-detect/src/detector.rs. */
module Detector {
  import opened Wrappers
  import opened Types
  import opened Prices
  import opened Graph = PriceGraph

  const DELTA_THRESHOLD_BPS: real := 20.0
  const DEDUP_THRESHOLD_BPS: real := 5.0

  datatype LastSpread = LastSpread(buyDex: Dex, sellDex: Dex, net: Bps)
  {
    /** Too close to `other` to be worth reporting again. */
    predicate Repeats(other: LastSpread) {
      buyDex == other.buyDex && sellDex == other.sellDex && net.Within(other.net, DEDUP_THRESHOLD_BPS)
    }
  }

  datatype Opportunity = Opportunity(
    baseMint: string,
    buyDex: Dex, buyPrice: real, buyPool: Option<string>,
    sellDex: Dex, sellPrice: real, sellPool: Option<string>,
    grossSpread: Bps, estimatedFeesBps: real, netSpread: Bps)

  datatype PriceDelta = PriceDelta(
    dex: Dex, poolAddress: Option<string>, baseMint: string,
    oldPrice: real, newPrice: real, deltaBps: real, source: PriceSource)

  type Memory = map<string, LastSpread>

  /** The key under which a spread is remembered. */
  function DedupKey(mint: string, buy: PriceQuote): string {
    mint + ":" + buy.quoteMint
  }

  /** Mints are base58; as long as they hold no colon, a key stands for one base and one quote mint. */
  lemma DedupKeyInjective(m: string, b: PriceQuote, n: string, c: PriceQuote)
    requires ':' !in m && ':' !in n
    ensures DedupKey(m, b) == DedupKey(n, c) <==> m == n && b.quoteMint == c.quoteMint
  {
    if DedupKey(m, b) == DedupKey(n, c) {
      assert DedupKey(m, b) == Tagged(m, b.quoteMint) && DedupKey(n, c) == Tagged(n, c.quoteMint);
      SplitIsUnique(m, b.quoteMint, n, c.quoteMint);
    }
  }

  function SpreadOf(buy: PriceQuote, sell: PriceQuote): LastSpread {
    LastSpread(buy.dex, sell.dex, NetSpreadBps(buy.dex, buy.priceUsd, sell.dex, sell.priceUsd))
  }

  /** The cheapest and the priciest venue differ and their net spread reaches the threshold. */
  predicate Qualifies(buy: PriceQuote, sell: PriceQuote, minSpreadBps: real) {
    && !(buy.dex == sell.dex && buy.poolAddress == sell.poolAddress)
    && SpreadOf(buy, sell).net.AtLeast(minSpreadBps)
  }

  /** A qualifying spread is reported unless it repeats the one remembered. */
  predicate Emits(memory: Memory, mint: string, buy: PriceQuote, sell: PriceQuote, minSpreadBps: real) {
    && Qualifies(buy, sell, minSpreadBps)
    && var key := DedupKey(mint, buy);
       !(key in memory && SpreadOf(buy, sell).Repeats(memory[key]))
  }

  function Remember(memory: Memory, mint: string, buy: PriceQuote, sell: PriceQuote, minSpreadBps: real): Memory {
    if Emits(memory, mint, buy, sell, minSpreadBps) then memory[DedupKey(mint, buy) := SpreadOf(buy, sell)] else memory
  }

  function Report(mint: string, buy: PriceQuote, sell: PriceQuote): Opportunity {
    Opportunity(
      mint, buy.dex, buy.priceUsd, buy.poolAddress, sell.dex, sell.priceUsd, sell.poolAddress,
      GrossSpreadBps(buy.priceUsd, sell.priceUsd), buy.dex.FeeBps() + sell.dex.FeeBps(), SpreadOf(buy, sell).net)
  }

  /** A move of at least 20 bps against the previous price of the same venue. */
  function DeltaFrom(previous: Option<real>, q: PriceQuote): Option<PriceDelta> {
    match previous
    case None => None
    case Some(before) =>
      if before <= 0.0 then None
      else
        var deltaBps := (q.priceUsd - before) / before * 10_000.0;
        if deltaBps >= DELTA_THRESHOLD_BPS || -deltaBps >= DELTA_THRESHOLD_BPS then
          Some(PriceDelta(q.dex, q.poolAddress, q.baseMint, before, q.priceUsd, deltaBps, q.source))
        else None
  }

  /** `v` is a venue of minimal price and `w` one of maximal price; equal prices mean one venue. */
  predicate ExtremesAmong(quotes: Venues, among: set<string>, v: string, w: string)
    requires among <= quotes.Keys
  {
    && v in among && w in among
    && (forall u | u in among :: quotes[v].priceUsd <= quotes[u].priceUsd <= quotes[w].priceUsd)
    && (quotes[v].priceUsd == quotes[w].priceUsd ==> v == w)
  }

  predicate Extremes(quotes: Venues, v: string, w: string) {
    ExtremesAmong(quotes, quotes.Keys, v, w)
  }

  /** One pass over the quotes in whatever order the map yields them. */
  method FindExtremes(quotes: Venues) returns (cheapest: string, priciest: string)
    requires quotes != map[]
    ensures Extremes(quotes, cheapest, priciest)
  {
    var rest := quotes.Keys;
    var low, high: Option<string> := None, None;
    while rest != {}
      invariant rest <= quotes.Keys
      invariant low.Some? <==> high.Some?
      invariant low.None? ==> rest == quotes.Keys
      invariant low.Some? ==> ExtremesAmong(quotes, quotes.Keys - rest, low.value, high.value)
      decreases |rest|
    {
      var v :| v in rest;
      if low.None? || quotes[v].priceUsd < quotes[low.value].priceUsd {
        low := Some(v);
      }
      if high.None? || quotes[v].priceUsd > quotes[high.value].priceUsd {
        high := Some(v);
      }
      rest := rest - {v};
    }
    assert quotes.Keys - rest == quotes.Keys;
    cheapest, priciest := low.value, high.value;
  }

  // ----- runs -----

  /** One examined pair of cheapest and priciest quotes of a mint. */
  datatype Sighting = Sighting(mint: string, buy: PriceQuote, sell: PriceQuote)
  {
    function Key(): string {
      DedupKey(mint, buy)
    }

    function Spread(): LastSpread {
      SpreadOf(buy, sell)
    }
  }

  function MemoryAfter(run: seq<Sighting>, minSpreadBps: real): Memory {
    if run == [] then map[]
    else
      var s := run[|run| - 1];
      Remember(MemoryAfter(run[..|run| - 1], minSpreadBps), s.mint, s.buy, s.sell, minSpreadBps)
  }

  predicate EmitsAt(run: seq<Sighting>, i: nat, minSpreadBps: real)
    requires i < |run|
  {
    Emits(MemoryAfter(run[..i], minSpreadBps), run[i].mint, run[i].buy, run[i].sell, minSpreadBps)
  }

  lemma MemoryOfLonger(run: seq<Sighting>, s: Sighting, minSpreadBps: real)
    ensures MemoryAfter(run + [s], minSpreadBps)
         == Remember(MemoryAfter(run, minSpreadBps), s.mint, s.buy, s.sell, minSpreadBps)
    ensures EmitsAt(run + [s], |run|, minSpreadBps)
         == Emits(MemoryAfter(run, minSpreadBps), s.mint, s.buy, s.sell, minSpreadBps)
  {
    assert (run + [s])[..|run|] == run;
  }

  /** What examining the fresh quotes of a mint reports, and the sighting it adds. */
  ghost predicate Examined(
    listing: Venues, mint: string, before: seq<Sighting>, after: seq<Sighting>, opportunity: Option<Opportunity>,
    minSpreadBps: real)
  {
    if |listing| < 2 then opportunity == None && after == before
    else
      exists v, w ::
        && Extremes(listing, v, w)
        && after == before + [Sighting(mint, listing[v], listing[w])]
        && opportunity == (if EmitsAt(after, |after| - 1, minSpreadBps)
                           then Some(Report(mint, listing[v], listing[w])) else None)
  }

  class Detector {
    const graph: Graph.PriceGraph
    const minSpreadBps: real
    var lastSpreads: Memory
    // The pairs examined so far.
    ghost var sightings: seq<Sighting>

    /** The memory is that of the sightings so far. */
    ghost predicate Valid()
      reads this, graph
    {
      graph.Valid() && lastSpreads == MemoryAfter(sightings, minSpreadBps)
    }

    constructor (minSpreadBps: real, maxQuoteAgeSecs: int)
      ensures fresh(graph) && Valid() && graph.history == [] && sightings == []
      ensures this.minSpreadBps == minSpreadBps && graph.maxAgeSecs == maxQuoteAgeSecs
    {
      graph := new Graph.PriceGraph(maxQuoteAgeSecs);
      this.minSpreadBps := minSpreadBps;
      lastSpreads := map[];
      sightings := [];
    }

    /** The last quotes of a pair's fresh venues. */
    ghost function FreshQuotes(pair: PairKey, now: int): Venues
      requires graph.Valid()
      reads graph
    {
      map u | u in graph.FreshVenues(pair, now) :: LastQuote(graph.history, pair, u).value
    }

    /**
      Files the quote; the delta is measured against the previous quote of the same
      venue, and the report, if any, joins a cheapest and a priciest fresh venue.
     */
    method Process(q: PriceQuote, now: int) returns (opportunity: Option<Opportunity>, delta: Option<PriceDelta>)
      requires Valid()
      modifies this, graph
      ensures Valid() && graph.history == old(graph.history) + [q]
      ensures delta == DeltaFrom(old(graph.PreviousPrice(q)), q)
      ensures WellKeyed(FreshQuotes(PairOf(q), now))
      ensures Examined(FreshQuotes(PairOf(q), now), q.baseMint, old(sightings), sightings, opportunity, minSpreadBps)
    {
      delta := DeltaFrom(graph.PreviousPrice(q), q);
      var quotes := graph.Update(q, now);
      assert quotes == FreshQuotes(PairOf(q), now);
      LastQuotesAreKeyed(graph.history, PairOf(q), quotes);
      opportunity := Examine(quotes, q.baseMint);
    }

    /** The second half of `Process`: the spread of the fresh quotes, against the memory. */
    method Examine(quotes: Venues, mint: string) returns (opportunity: Option<Opportunity>)
      requires lastSpreads == MemoryAfter(sightings, minSpreadBps)
      modifies this`lastSpreads, this`sightings
      ensures lastSpreads == MemoryAfter(sightings, minSpreadBps)
      ensures Examined(quotes, mint, old(sightings), sightings, opportunity, minSpreadBps)
    {
      if |quotes| < 2 {
        return None;
      }
      var v, w := FindExtremes(quotes);
      var buy, sell := quotes[v], quotes[w];
      MemoryOfLonger(sightings, Sighting(mint, buy, sell), minSpreadBps);
      sightings := sightings + [Sighting(mint, buy, sell)];
      if buy.dex == sell.dex && buy.poolAddress == sell.poolAddress {
        return None;
      }
      var net := NetSpreadBps(buy.dex, buy.priceUsd, sell.dex, sell.priceUsd);
      if !net.AtLeast(minSpreadBps) {
        return None;
      }
      var key := DedupKey(mint, buy);
      var spread := LastSpread(buy.dex, sell.dex, net);
      if key in lastSpreads && spread.Repeats(lastSpreads[key]) {
        return None;
      }
      lastSpreads := lastSpreads[key := spread];
      opportunity := Some(Report(mint, buy, sell));
    }
  }

  // ----- one report -----

  /** Under positive prices a report joins two venues of maximal gross spread. */
  lemma ReportIsMaximal(quotes: Venues, v: string, w: string, a: string, b: string)
    requires Extremes(quotes, v, w) && a in quotes && b in quotes
    requires forall u | u in quotes :: quotes[u].priceUsd > 0.0
    ensures var best := GrossSpreadBps(quotes[v].priceUsd, quotes[w].priceUsd);
            var other := GrossSpreadBps(quotes[a].priceUsd, quotes[b].priceUsd);
            best.Finite? && other.Finite? && 0.0 <= best.bps && other.bps <= best.bps
  {
    RatioMonotone(quotes[v].priceUsd, quotes[a].priceUsd, quotes[b].priceUsd, quotes[w].priceUsd);
  }

  lemma RatioMonotone(low: real, a: real, b: real, high: real)
    requires 0.0 < low <= a && b <= high && low <= high
    ensures 0.0 <= (high - low) / low && (b - a) / a <= (high - low) / low
  {
    var best, other := (high - low) / low, (b - a) / a;
    assert best * low == high - low;
    assert other * a == b - a;
    assert 0.0 <= best;
    assert best * low <= best * a;
    Cancel(other, best, a);
  }

  lemma Cancel(x: real, y: real, k: real)
    requires 0.0 < k && x * k <= y * k
    ensures x <= y
  {
  }

  /** Whichever cheapest and priciest venues the map yields, the gross spread is the same. */
  lemma GrossSpreadIgnoresOrder(quotes: Venues, v: string, w: string, v': string, w': string)
    requires Extremes(quotes, v, w) && Extremes(quotes, v', w')
    ensures GrossSpreadBps(quotes[v].priceUsd, quotes[w].priceUsd)
         == GrossSpreadBps(quotes[v'].priceUsd, quotes[w'].priceUsd)
  {
  }

  /** A reported buy is strictly cheaper than the sell, on another venue. */
  lemma ReportJoinsTwoVenues(quotes: Venues, v: string, w: string, memory: Memory, mint: string, minSpreadBps: real)
    requires Extremes(quotes, v, w) && Emits(memory, mint, quotes[v], quotes[w], minSpreadBps)
    ensures v != w && quotes[v].priceUsd < quotes[w].priceUsd
  {
  }

  /** The fee the detector assumes of a DEX, in basis points. */
  function AssumedFee(dex: Dex): nat {
    if dex.PumpFun? then 100 else if dex.Meteora? then 30 else 25
  }

  /** A spread over a positive price: gross as a share of the buy price, net less both assumed fees. */
  predicate SpreadIs(gross: Bps, net: Bps, buyPrice: real, sellPrice: real, fees: nat) {
    && gross.Finite? && gross.bps * buyPrice == (sellPrice - buyPrice) * 10_000.0
    && net.Finite? && net.bps == gross.bps - fees as real
  }

  /** What a report says of the two quotes it joins. */
  lemma ReportIs(mint: string, buy: PriceQuote, sell: PriceQuote)
    ensures var o := Report(mint, buy, sell);
            && o.baseMint == mint
            && o.buyDex == buy.dex && o.buyPrice == buy.priceUsd && o.buyPool == buy.poolAddress
            && o.sellDex == sell.dex && o.sellPrice == sell.priceUsd && o.sellPool == sell.poolAddress
            && o.estimatedFeesBps == (AssumedFee(buy.dex) + AssumedFee(sell.dex)) as real
            && (buy.priceUsd > 0.0 ==>
                  SpreadIs(o.grossSpread, o.netSpread, buy.priceUsd, sell.priceUsd,
                           AssumedFee(buy.dex) + AssumedFee(sell.dex)))
            && (buy.priceUsd == 0.0 ==> o.grossSpread.Infinite? && o.netSpread.Infinite?)
  {
    if buy.priceUsd > 0.0 {
      SpreadMeaning(buy.dex, buy.priceUsd, sell.dex, sell.priceUsd);
    }
  }

  /** `sell` exceeds `buy` by at least `bps`, as a share of `buy`. */
  predicate ExceedsBy(sell: real, buy: real, bps: real) {
    (sell - buy) * 10_000.0 >= bps * buy
  }

  predicate FallsShortBy(price: real, before: real, bps: real) {
    (before - price) * 10_000.0 >= bps * before
  }

  lemma AtLeastIff(gross: real, buy: real, sell: real, bps: real)
    requires buy > 0.0 && gross * buy == (sell - buy) * 10_000.0
    ensures bps <= gross <==> ExceedsBy(sell, buy, bps)
  {
    if bps <= gross {
      Scaled(bps, gross, buy);
    } else {
      Scaled(gross, bps, buy);
      if gross * buy == bps * buy {
        Cancel(bps, gross, buy);
      }
    }
  }

  lemma Scaled(x: real, y: real, k: real)
    requires x <= y && k > 0.0
    ensures x * k <= y * k
  {
  }

  /**
    At a positive price two quotes qualify exactly when they come from two venues and
    the sell price exceeds the buy price by both assumed fees and the threshold.
   */
  lemma QualifiesIff(buy: PriceQuote, sell: PriceQuote, minSpreadBps: real)
    requires buy.priceUsd > 0.0
    ensures Qualifies(buy, sell, minSpreadBps) <==>
              && (buy.dex != sell.dex || buy.poolAddress != sell.poolAddress)
              && ExceedsBy(sell.priceUsd, buy.priceUsd,
                           minSpreadBps + (AssumedFee(buy.dex) + AssumedFee(sell.dex)) as real)
  {
    SpreadMeaning(buy.dex, buy.priceUsd, sell.dex, sell.priceUsd);
    AtLeastIff(GrossSpreadBps(buy.priceUsd, sell.priceUsd).bps, buy.priceUsd, sell.priceUsd,
               minSpreadBps + (AssumedFee(buy.dex) + AssumedFee(sell.dex)) as real);
  }

  /** One spread repeats another exactly on the same two DEXs, both finite and less than 5 bps apart. */
  lemma RepeatsIff(a: LastSpread, b: LastSpread)
    ensures a.Repeats(b) <==>
              && a.buyDex == b.buyDex && a.sellDex == b.sellDex
              && a.net.Finite? && b.net.Finite? && a.net.bps < b.net.bps + 5.0 && b.net.bps < a.net.bps + 5.0
  {
  }

  /** A delta is sent exactly for a move of 20 bps or more from a positive price, either way, and shows it. */
  lemma DeltaIff(previous: Option<real>, q: PriceQuote)
    ensures DeltaFrom(previous, q).Some? <==>
              && previous.Some? && previous.value > 0.0
              && (ExceedsBy(q.priceUsd, previous.value, 20.0) || FallsShortBy(q.priceUsd, previous.value, 20.0))
    ensures match DeltaFrom(previous, q)
            case None => true
            case Some(d) =>
              && d.dex == q.dex && d.poolAddress == q.poolAddress && d.baseMint == q.baseMint && d.source == q.source
              && Some(d.oldPrice) == previous && d.newPrice == q.priceUsd
              && d.deltaBps * d.oldPrice == (d.newPrice - d.oldPrice) * 10_000.0
  {
    if previous.Some? && previous.value > 0.0 {
      var before := previous.value;
      var ratio := (q.priceUsd - before) / before;
      assert ratio * before == q.priceUsd - before;
      assert ratio * 10_000.0 * before == ratio * before * 10_000.0;
      AtLeastIff(ratio * 10_000.0, before, q.priceUsd, 20.0);
      MinusIff(ratio * 10_000.0, before, q.priceUsd);
    }
  }

  lemma MinusIff(deltaBps: real, before: real, price: real)
    requires before > 0.0 && deltaBps * before == (price - before) * 10_000.0
    ensures -deltaBps >= 20.0 <==> FallsShortBy(price, before, 20.0)
  {
    AtLeastIff(-deltaBps, before, 2.0 * before - price, 20.0);
  }

  // ----- the dedup memory over runs -----

  /** No report under the key at positions from..to. */
  predicate Quiet(run: seq<Sighting>, from: nat, to: nat, key: string, minSpreadBps: real) {
    forall k | from <= k < to && k < |run| && run[k].Key() == key :: !EmitsAt(run, k, minSpreadBps)
  }

  /** The memory holds the last report of each key. */
  lemma {:induction false} MemoryIsLastReport(run: seq<Sighting>, i: nat, minSpreadBps: real)
    requires i < |run| && EmitsAt(run, i, minSpreadBps)
    requires Quiet(run, i + 1, |run|, run[i].Key(), minSpreadBps)
    ensures var memory := MemoryAfter(run, minSpreadBps);
            run[i].Key() in memory && memory[run[i].Key()] == run[i].Spread()
    decreases |run|
  {
    var n := |run| - 1;
    if i < n {
      var shorter := run[..n];
      assert forall k | 0 <= k <= n :: shorter[..k] == run[..k];
      assert forall k | 0 <= k < n :: EmitsAt(shorter, k, minSpreadBps) <==> EmitsAt(run, k, minSpreadBps);
      MemoryIsLastReport(shorter, i, minSpreadBps);
      assert run[n].Key() == run[i].Key() ==> !EmitsAt(run, n, minSpreadBps);
    }
  }

  /**
    Two consecutive reports for one key name different DEX pairs, or spreads that
    are not within 5 bps of each other.
   */
  lemma ConsecutiveReportsDiffer(run: seq<Sighting>, i: nat, j: nat, minSpreadBps: real)
    requires i < j < |run| && run[i].Key() == run[j].Key()
    requires EmitsAt(run, i, minSpreadBps) && EmitsAt(run, j, minSpreadBps)
    requires Quiet(run, i + 1, j, run[i].Key(), minSpreadBps)
    ensures !run[j].Spread().Repeats(run[i].Spread())
  {
    var before := run[..j];
    assert forall k | 0 <= k <= j :: before[..k] == run[..k];
    assert forall k | 0 <= k < j :: EmitsAt(before, k, minSpreadBps) <==> EmitsAt(run, k, minSpreadBps);
    MemoryIsLastReport(before, i, minSpreadBps);
  }

  // ----- the memory of one pair of mints -----

  predicate SamePair(a: Sighting, b: Sighting) {
    a.mint == b.mint && a.buy.quoteMint == b.buy.quoteMint
  }

  predicate PlainMints(run: seq<Sighting>) {
    forall i | 0 <= i < |run| :: ':' !in run[i].mint
  }

  lemma SamePairIff(a: Sighting, b: Sighting)
    requires ':' !in a.mint && ':' !in b.mint
    ensures SamePair(a, b) <==> a.Key() == b.Key()
  {
    DedupKeyInjective(a.mint, a.buy, b.mint, b.buy);
  }

  /** The sightings of the base and quote mint of `s`. */
  function OfPair(run: seq<Sighting>, s: Sighting): seq<Sighting> {
    if run == [] then []
    else
      var n := |run| - 1;
      if SamePair(run[n], s) then OfPair(run[..n], s) + [run[n]] else OfPair(run[..n], s)
  }

  predicate RememberedAlike(a: Memory, b: Memory, key: string) {
    (key in a <==> key in b) && (key in a ==> a[key] == b[key])
  }

  lemma {:induction false} MemoryOfPair(run: seq<Sighting>, s: Sighting, minSpreadBps: real)
    requires PlainMints(run) && ':' !in s.mint
    ensures RememberedAlike(MemoryAfter(run, minSpreadBps), MemoryAfter(OfPair(run, s), minSpreadBps), s.Key())
    decreases |run|
  {
    if run != [] {
      var n := |run| - 1;
      MemoryOfPair(run[..n], s, minSpreadBps);
      SamePairIff(run[n], s);
      if SamePair(run[n], s) {
        MemoryOfLonger(OfPair(run[..n], s), run[n], minSpreadBps);
      }
    }
  }

  /** Whether a sighting is reported depends on the earlier sightings of its own base and quote mint only. */
  lemma ReportDependsOnPair(run: seq<Sighting>, s: Sighting, minSpreadBps: real)
    requires PlainMints(run) && ':' !in s.mint
    ensures EmitsAt(run + [s], |run|, minSpreadBps)
       <==> EmitsAt(OfPair(run, s) + [s], |OfPair(run, s)|, minSpreadBps)
  {
    MemoryOfPair(run, s, minSpreadBps);
    MemoryOfLonger(run, s, minSpreadBps);
    MemoryOfLonger(OfPair(run, s), s, minSpreadBps);
  }

  /** Of two consecutive reports of one base and quote mint, the later one does not repeat the earlier. */
  lemma ReportsOfPairDiffer(run: seq<Sighting>, i: nat, j: nat, minSpreadBps: real)
    requires PlainMints(run) && i < j < |run| && SamePair(run[i], run[j])
    requires EmitsAt(run, i, minSpreadBps) && EmitsAt(run, j, minSpreadBps)
    requires forall k | i < k < j && SamePair(run[k], run[i]) :: !EmitsAt(run, k, minSpreadBps)
    ensures !run[j].Spread().Repeats(run[i].Spread())
  {
    SamePairIff(run[i], run[j]);
    forall k | i + 1 <= k < j && run[k].Key() == run[i].Key()
      ensures !EmitsAt(run, k, minSpreadBps)
    {
      SamePairIff(run[k], run[i]);
    }
    ConsecutiveReportsDiffer(run, i, j, minSpreadBps);
  }

  /** Position `i` holds the last report of the pair of `s`. */
  predicate IsLastReportOf(run: seq<Sighting>, s: Sighting, i: int, minSpreadBps: real) {
    && 0 <= i < |run| && SamePair(run[i], s) && EmitsAt(run, i, minSpreadBps)
    && forall k | i < k < |run| && SamePair(run[k], s) :: !EmitsAt(run, k, minSpreadBps)
  }

  lemma SameEmissions(run: seq<Sighting>, n: nat, minSpreadBps: real)
    requires n <= |run|
    ensures forall k | 0 <= k < n :: EmitsAt(run[..n], k, minSpreadBps) == EmitsAt(run, k, minSpreadBps)
  {
    assert forall k | 0 <= k < n :: run[..n][..k] == run[..k];
  }

  /** Where the last report of a pair is, if there is any. */
  lemma {:induction false} LastReportOf(run: seq<Sighting>, s: Sighting, minSpreadBps: real) returns (i: int)
    requires PlainMints(run) && ':' !in s.mint
    ensures if s.Key() in MemoryAfter(run, minSpreadBps)
            then IsLastReportOf(run, s, i, minSpreadBps)
                 && MemoryAfter(run, minSpreadBps)[s.Key()] == run[i].Spread()
            else forall k | 0 <= k < |run| && SamePair(run[k], s) :: !EmitsAt(run, k, minSpreadBps)
    decreases |run|
  {
    i := -1;
    if run != [] {
      var n := |run| - 1;
      i := LastReportOf(run[..n], s, minSpreadBps);
      SamePairIff(run[n], s);
      SameEmissions(run, n, minSpreadBps);
      if SamePair(run[n], s) && EmitsAt(run, n, minSpreadBps) {
        i := n;
      }
    }
  }

  /**
    Over every run: a sighting is reported exactly when it qualifies and does not
    repeat the last report of its base and quote mint.
   */
  lemma ReportedIff(run: seq<Sighting>, n: nat, minSpreadBps: real)
    requires PlainMints(run) && n < |run|
    ensures EmitsAt(run, n, minSpreadBps) <==>
              && Qualifies(run[n].buy, run[n].sell, minSpreadBps)
              && forall i | IsLastReportOf(run[..n], run[n], i, minSpreadBps) ::
                   !run[n].Spread().Repeats(run[i].Spread())
  {
    var last := LastReportOf(run[..n], run[n], minSpreadBps);
    forall i | IsLastReportOf(run[..n], run[n], i, minSpreadBps)
      ensures run[n].Key() in MemoryAfter(run[..n], minSpreadBps) && i == last
    {
      assert run[..n][i] == run[i];
    }
  }

  /** A first sighting of its base and quote mint that qualifies is reported, whatever else was. */
  lemma FirstOfPairIsReported(run: seq<Sighting>, s: Sighting, minSpreadBps: real)
    requires PlainMints(run) && ':' !in s.mint && forall r | r in run :: !SamePair(r, s)
    ensures EmitsAt(run + [s], |run|, minSpreadBps) <==> Qualifies(s.buy, s.sell, minSpreadBps)
  {
    NoneOfPair(run, s);
    ReportDependsOnPair(run, s, minSpreadBps);
    MemoryOfLonger([], s, minSpreadBps);
  }

  lemma {:induction false} NoneOfPair(run: seq<Sighting>, s: Sighting)
    requires forall r | r in run :: !SamePair(r, s)
    ensures OfPair(run, s) == []
    decreases |run|
  {
    if run != [] {
      NoneOfPair(run[..|run| - 1], s);
    }
  }

  /**
    Drift is never lost: after every qualifying sighting the memory names its DEX
    pair with a spread equal to, or within 5 bps of, the one seen.
   */
  lemma QualifyingIsRemembered(memory: Memory, s: Sighting, minSpreadBps: real)
    requires Qualifies(s.buy, s.sell, minSpreadBps)
    ensures var after := Remember(memory, s.mint, s.buy, s.sell, minSpreadBps);
            && s.Key() in after
            && (after[s.Key()] == s.Spread() || s.Spread().Repeats(after[s.Key()]))
            && (forall k | k in memory && k != s.Key() :: k in after && after[k] == memory[k])
  {
  }

  /**
    Seen twice in a row, a reported pair is reported again exactly when its
    cheapest price is zero: an infinite spread is within 5 bps of nothing.
   */
  lemma RepeatedReportIff(memory: Memory, s: Sighting, minSpreadBps: real)
    requires Emits(memory, s.mint, s.buy, s.sell, minSpreadBps)
    ensures Emits(Remember(memory, s.mint, s.buy, s.sell, minSpreadBps), s.mint, s.buy, s.sell, minSpreadBps)
       <==> s.buy.priceUsd == 0.0
  {
  }
}
