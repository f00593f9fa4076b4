/** The latest price per venue of crates/arb-detect/src/graph.rs. */
module PriceGraph {
  import opened Wrappers
  import opened Types

  type PairKey = (string, string)
  type Venues = map<string, PriceQuote>

  // ----- keys -----

  function PairOf(q: PriceQuote): PairKey {
    (q.baseMint, if q.quoteMint == "" then "unknown" else q.quoteMint)
  }

  function VenueKey(q: PriceQuote): string {
    match q.poolAddress
    case Some(address) => Tagged(q.dex.AsString(), address)
    case None => q.dex.AsString()
  }

  lemma DexNamesHaveNoColon(dex: Dex)
    ensures ':' !in dex.AsString()
  {
  }

  function Initial(dex: Dex): char {
    match dex
    case Raydium | RaydiumClmm => 'r'
    case Orca => 'o'
    case Jupiter => 'j'
    case Meteora => 'm'
    case PumpFun | PumpSwap => 'p'
    case UnknownDex => 'u'
  }

  lemma NameShape(dex: Dex)
    ensures |dex.AsString()| == (match dex case Orca => 4 case PumpSwap => 8 case RaydiumClmm => 12 case _ => 7)
    ensures dex.AsString()[0] == Initial(dex)
  {
  }

  lemma DexNamesDiffer(a: Dex, b: Dex)
    ensures a.AsString() == b.AsString() <==> a == b
  {
    NameShape(a);
    NameShape(b);
  }

  function Tagged(name: string, tag: string): (key: string)
    ensures |key| == |name| + 1 + |tag| && key[|name|] == ':'
    ensures (forall i | 0 <= i < |name| :: key[i] == name[i]) && key[..|name|] == name && key[|name| + 1..] == tag
  {
    name + ":" + tag
  }

  lemma NameIsNotShorter(a: string, x: string, b: string, y: string)
    requires ':' !in b && Tagged(a, x) == Tagged(b, y)
    ensures |b| <= |a|
  {
  }

  /** The part before the first colon decides where a key splits. */
  lemma SplitIsUnique(a: string, x: string, b: string, y: string)
    requires ':' !in a && ':' !in b && Tagged(a, x) == Tagged(b, y)
    ensures a == b && x == y
  {
    NameIsNotShorter(a, x, b, y);
    NameIsNotShorter(b, y, a, x);
    assert Tagged(a, x)[..|a|] == a && Tagged(b, y)[..|b|] == b;
  }

  /** Two quotes share a venue key exactly when they name the same DEX and the same pool. */
  lemma VenueKeyInjective(p: PriceQuote, q: PriceQuote)
    ensures VenueKey(p) == VenueKey(q) <==> p.dex == q.dex && p.poolAddress == q.poolAddress
  {
    DexNamesHaveNoColon(p.dex);
    DexNamesHaveNoColon(q.dex);
    DexNamesDiffer(p.dex, q.dex);
    ColonMarksPool(p);
    ColonMarksPool(q);
    if p.poolAddress.Some? && q.poolAddress.Some? && VenueKey(p) == VenueKey(q) {
      SplitIsUnique(p.dex.AsString(), p.poolAddress.value, q.dex.AsString(), q.poolAddress.value);
    }
  }

  /** Two quotes are of one pair exactly when their mints agree; no quote mint is the mint "unknown". */
  lemma PairOfIff(p: PriceQuote, q: PriceQuote)
    ensures PairOf(p) == PairOf(q) <==>
              && p.baseMint == q.baseMint
              && (p.quoteMint == q.quoteMint || (p.quoteMint in {"", "unknown"} && q.quoteMint in {"", "unknown"}))
  {
  }

  lemma ColonMarksPool(q: PriceQuote)
    ensures ':' in VenueKey(q) <==> q.poolAddress.Some?
  {
    DexNamesHaveNoColon(q.dex);
    if q.poolAddress.Some? {
      assert VenueKey(q)[|q.dex.AsString()|] == ':';
    }
  }

  // ----- staleness -----

  /** Whole seconds, truncated toward zero. */
  function WholeSeconds(milliseconds: int): int {
    if milliseconds < 0 then -(-milliseconds / 1000) else milliseconds / 1000
  }

  /** A limit of n seconds lets a quote live until it is n + 1 seconds old. */
  predicate IsStale(q: PriceQuote, now: int, maxAgeSecs: int): (stale: bool)
    ensures 0 <= maxAgeSecs ==> (stale <==> (maxAgeSecs + 1) * 1000 <= now - q.timestamp)
    ensures maxAgeSecs < 0 ==> (stale <==> maxAgeSecs * 1000 < now - q.timestamp)
  {
    WholeSeconds(now - q.timestamp) > maxAgeSecs
  }

  // ----- history -----

  /** The last quote of a history for a pair and a venue. */
  function LastQuote(history: seq<PriceQuote>, pair: PairKey, venue: string): Option<PriceQuote> {
    if history == [] then None
    else
      var n := |history| - 1;
      if PairOf(history[n]) == pair && VenueKey(history[n]) == venue then Some(history[n])
      else LastQuote(history[..n], pair, venue)
  }

  function Slot(prices: map<PairKey, Venues>, pair: PairKey, venue: string): Option<PriceQuote> {
    if pair in prices && venue in prices[pair] then Some(prices[pair][venue]) else None
  }

  class PriceGraph {
    var prices: map<PairKey, Venues>
    const maxAgeSecs: int
    // Every quote the graph has been updated with.
    ghost var history: seq<PriceQuote>

    /** Every slot holds the last quote of its pair and venue, and nothing else is stored. */
    ghost predicate Valid()
      reads this
    {
      forall pair, venue :: Slot(prices, pair, venue) == LastQuote(history, pair, venue)
    }

    constructor (maxAgeSecs: int)
      ensures Valid() && history == [] && this.maxAgeSecs == maxAgeSecs
    {
      prices := map[];
      history := [];
      this.maxAgeSecs := maxAgeSecs;
    }

    /** The price last seen on the quote's own venue. */
    function PreviousPrice(q: PriceQuote): (price: Option<real>)
      requires Valid()
      reads this
      ensures price == match LastQuote(history, PairOf(q), VenueKey(q))
                       case Some(last) => Some(last.priceUsd)
                       case None => None
    {
      match Slot(prices, PairOf(q), VenueKey(q))
      case Some(last) => Some(last.priceUsd)
      case None => None
    }

    /** The venues of a pair whose quote is not stale. */
    function FreshVenues(pair: PairKey, now: int): (venues: set<string>)
      requires Valid()
      reads this
      ensures forall v :: v in venues <==>
                && LastQuote(history, pair, v).Some?
                && var age := now - LastQuote(history, pair, v).value.timestamp;
                   if 0 <= maxAgeSecs then age < (maxAgeSecs + 1) * 1000 else age <= maxAgeSecs * 1000
    {
      assert forall v :: Slot(prices, pair, v) == LastQuote(history, pair, v);
      if pair !in prices then {}
      else set v | v in prices[pair] && !IsStale(prices[pair][v], now, maxAgeSecs)
    }

    /** Files the quote and returns the fresh quotes of its pair, by venue. */
    method Update(q: PriceQuote, now: int) returns (quotes: Venues)
      requires Valid()
      modifies this
      ensures Valid() && history == old(history) + [q]
      ensures forall v :: v in quotes <==>
                && LastQuote(history, PairOf(q), v).Some?
                && var age := now - LastQuote(history, PairOf(q), v).value.timestamp;
                   if 0 <= maxAgeSecs then age < (maxAgeSecs + 1) * 1000 else age <= maxAgeSecs * 1000
      ensures forall v | v in quotes :: Some(quotes[v]) == LastQuote(history, PairOf(q), v)
      ensures quotes.Keys == FreshVenues(PairOf(q), now)
    {
      var pair, venue := PairOf(q), VenueKey(q);
      var venues := if pair in prices then prices[pair] else map[];
      ghost var before := prices;
      prices := prices[pair := venues[venue := q]];
      history := history + [q];
      assert history[..|history| - 1] == old(history);
      forall p, v
        ensures Slot(prices, p, v) == LastQuote(history, p, v)
      {
        assert Slot(before, p, v) == LastQuote(old(history), p, v);
      }
      quotes := map v | v in prices[pair] && !IsStale(prices[pair][v], now, maxAgeSecs) :: prices[pair][v];
      assert forall v :: Slot(prices, pair, v) == LastQuote(history, pair, v);
    }
  }

  /** What the history holds for a pair and venue was quoted for that pair on that venue. */
  lemma {:induction false} LastQuoteMatches(history: seq<PriceQuote>, pair: PairKey, venue: string)
    ensures var last := LastQuote(history, pair, venue);
            last.Some? ==> PairOf(last.value) == pair && VenueKey(last.value) == venue && last.value in history
  {
    if history != [] {
      LastQuoteMatches(history[..|history| - 1], pair, venue);
    }
  }

  /** The same pair on the same venue, by the fields of the quotes. */
  predicate SameSlot(p: PriceQuote, q: PriceQuote) {
    && p.baseMint == q.baseMint && p.dex == q.dex && p.poolAddress == q.poolAddress
    && (p.quoteMint == q.quoteMint || (p.quoteMint in {"", "unknown"} && q.quoteMint in {"", "unknown"}))
  }

  lemma SameSlotIff(p: PriceQuote, q: PriceQuote)
    ensures SameSlot(p, q) <==> PairOf(p) == PairOf(q) && VenueKey(p) == VenueKey(q)
  {
    PairOfIff(p, q);
    VenueKeyInjective(p, q);
  }

  /** At `k` stands the last quote of the history with the same mints, DEX and pool. */
  predicate IsLastLike(history: seq<PriceQuote>, q: PriceQuote, k: int) {
    && 0 <= k < |history| && SameSlot(history[k], q)
    && forall j | k < j < |history| :: !SameSlot(history[j], q)
  }

  /** A quote of another slot changes nothing. */
  lemma StillLast(history: seq<PriceQuote>, other: PriceQuote, q: PriceQuote, k: int)
    requires IsLastLike(history, q, k) && !SameSlot(other, q)
    ensures IsLastLike(history + [other], q, k)
  {
  }

  lemma LastQuoteOfLonger(history: seq<PriceQuote>, last: PriceQuote, q: PriceQuote)
    ensures LastQuote(history + [last], PairOf(q), VenueKey(q))
         == if SameSlot(last, q) then Some(last) else LastQuote(history, PairOf(q), VenueKey(q))
  {
    SameSlotIff(last, q);
    assert (history + [last])[..|history|] == history;
  }

  lemma {:induction false} LastQuoteAt(history: seq<PriceQuote>, q: PriceQuote) returns (k: int)
    ensures match LastQuote(history, PairOf(q), VenueKey(q))
            case None => forall j | 0 <= j < |history| :: !SameSlot(history[j], q)
            case Some(last) => IsLastLike(history, q, k) && history[k] == last
    decreases |history|
  {
    k := -1;
    if history != [] {
      var n := |history| - 1;
      assert history == history[..n] + [history[n]];
      LastQuoteOfLonger(history[..n], history[n], q);
      if SameSlot(history[n], q) {
        k := n;
      } else {
        k := LastQuoteAt(history[..n], q);
        if IsLastLike(history[..n], q, k) {
          StillLast(history[..n], history[n], q, k);
        }
      }
    }
  }

  /** A slot holds the last quote of the history with the same mints, DEX and pool. */
  lemma LastQuoteIsLast(history: seq<PriceQuote>, q: PriceQuote)
    ensures match LastQuote(history, PairOf(q), VenueKey(q))
            case None => forall p | p in history :: !SameSlot(p, q)
            case Some(last) => exists k :: IsLastLike(history, q, k) && history[k] == last
  {
    var k := LastQuoteAt(history, q);
  }

  /** Every quote is filed under its own venue. */
  predicate WellKeyed(listing: Venues) {
    forall v | v in listing :: VenueKey(listing[v]) == v
  }

  lemma LastQuotesAreKeyed(history: seq<PriceQuote>, pair: PairKey, listing: Venues)
    requires forall v | v in listing :: LastQuote(history, pair, v) == Some(listing[v])
    ensures WellKeyed(listing)
  {
    forall v | v in listing
      ensures VenueKey(listing[v]) == v
    {
      LastQuoteMatches(history, pair, v);
    }
  }
}
