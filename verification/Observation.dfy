/**
  The stale-reserve observation of crates/arb-sim/src/observation.rs: the price of
  the pool just traded on against the liquidity-weighted mean of the other pairs.
 */
module Observation {
  import opened Wrappers
  import opened Types

  /** A listed pair; a price that does not parse and an unknown liquidity are None. */
  datatype Pair = Pair(address: string, dexId: string, priceUsd: Option<real>, liquidityUsd: Option<real>)
  {
    function Liquidity(): real {
      if liquidityUsd.Some? then liquidityUsd.value else 0.0
    }

    function Price(): real {
      if priceUsd.Some? then priceUsd.value else 0.0
    }

    predicate Contributes() {
      Price() > 0.0 && Liquidity() > 0.0
    }
  }

  datatype Failed = NoPairs | NoTriggerPair | NoTriggerPrice

  datatype Observed = Observed(
    poolAddress: string, poolImplied: real, fairPrice: real, deltaBps: real, poolLiquidity: real, otherPairs: nat)

  // ----- the trigger pair -----

  function ListedName(dex: Dex): string {
    match dex
    case RaydiumClmm => "raydium"
    case UnknownDex => ""
    case _ => dex.AsString()
  }

  function Lower(c: char): char {
    if 'A' <= c <= 'Z' then (c as int + 32) as char else c
  }

  predicate EqIgnoreCase(a: string, b: string) {
    |a| == |b| && forall i | 0 <= i < |a| :: Lower(a[i]) == Lower(b[i])
  }

  predicate OnDex(p: Pair, dex: Dex) {
    EqIgnoreCase(p.dexId, ListedName(dex))
  }

  function FindAddress(pairs: seq<Pair>, address: string): Option<Pair> {
    if pairs == [] then None
    else if pairs[0].address == address then Some(pairs[0])
    else FindAddress(pairs[1..], address)
  }

  /** The last of the most liquid pairs of a DEX. */
  function MostLiquid(pairs: seq<Pair>, dex: Dex): Option<Pair> {
    if pairs == [] then None
    else
      var last := pairs[|pairs| - 1];
      var best := MostLiquid(pairs[..|pairs| - 1], dex);
      if OnDex(last, dex) && (best.None? || best.value.Liquidity() <= last.Liquidity()) then Some(last) else best
  }

  function PickTriggerPair(pairs: seq<Pair>, dex: Dex, address: Option<string>): Option<Pair> {
    if address.Some? && FindAddress(pairs, address.value).Some? then FindAddress(pairs, address.value)
    else MostLiquid(pairs, dex)
  }

  lemma {:induction false} FoundIsFirst(pairs: seq<Pair>, address: string)
    ensures match FindAddress(pairs, address)
            case None => forall p | p in pairs :: p.address != address
            case Some(found) =>
              found.address == address
              && exists k | 0 <= k < |pairs| ::
                   pairs[k] == found && forall j | 0 <= j < k :: pairs[j].address != address
    decreases |pairs|
  {
    if pairs != [] && pairs[0].address != address {
      FoundIsFirst(pairs[1..], address);
      if FindAddress(pairs, address).Some? {
        var k :| 0 <= k < |pairs[1..]| && pairs[1..][k] == FindAddress(pairs, address).value
                 && forall j | 0 <= j < k :: pairs[1..][j].address != address;
        assert pairs[k + 1] == FindAddress(pairs, address).value;
        forall j | 0 <= j < k + 1
          ensures pairs[j].address != address
        {
          assert j > 0 ==> pairs[j] == pairs[1..][j - 1];
        }
      }
    } else if pairs != [] {
      assert pairs[0] == FindAddress(pairs, address).value;
    }
  }

  /** At `k` stands the most liquid pair of the DEX, the later one on a tie. */
  ghost predicate IsLastMostLiquid(pairs: seq<Pair>, dex: Dex, k: int) {
    && 0 <= k < |pairs| && OnDex(pairs[k], dex)
    && forall j | 0 <= j < |pairs| && OnDex(pairs[j], dex) ::
         if j <= k then pairs[j].Liquidity() <= pairs[k].Liquidity() else pairs[j].Liquidity() < pairs[k].Liquidity()
  }

  /** Where `MostLiquid` finds its pair; -1 when the DEX has none. */
  lemma {:induction false} MostLiquidAt(pairs: seq<Pair>, dex: Dex) returns (k: int)
    ensures match MostLiquid(pairs, dex)
            case None => k == -1 && forall j | 0 <= j < |pairs| :: !OnDex(pairs[j], dex)
            case Some(best) => IsLastMostLiquid(pairs, dex, k) && pairs[k] == best
    decreases |pairs|
  {
    if pairs == [] {
      k := -1;
    } else {
      var n := |pairs| - 1;
      k := MostLiquidAt(pairs[..n], dex);
      if OnDex(pairs[n], dex) && (k == -1 || pairs[k].Liquidity() <= pairs[n].Liquidity()) {
        k := n;
      }
    }
  }

  /** The fallback is the last pair of maximal liquidity on the DEX, if it has any pair. */
  lemma MostLiquidIsLastMaximum(pairs: seq<Pair>, dex: Dex)
    ensures match MostLiquid(pairs, dex)
            case None => forall p | p in pairs :: !OnDex(p, dex)
            case Some(best) => exists k :: IsLastMostLiquid(pairs, dex, k) && pairs[k] == best
  {
    var k := MostLiquidAt(pairs, dex);
  }

  // ----- the fair price -----

  /** Price times liquidity, and liquidity. */
  datatype Weighted = Weighted(sum: real, total: real)

  function Plus(a: Weighted, b: Weighted): Weighted {
    Weighted(a.sum + b.sum, a.total + b.total)
  }

  function Contribution(p: Pair): Weighted {
    if p.Contributes() then Weighted(p.Price() * p.Liquidity(), p.Liquidity()) else Weighted(0.0, 0.0)
  }

  function Sum(weigh: Pair -> Weighted, pairs: seq<Pair>): Weighted {
    if pairs == [] then Weighted(0.0, 0.0)
    else Plus(Sum(weigh, pairs[..|pairs| - 1]), weigh(pairs[|pairs| - 1]))
  }

  function Fold(pairs: seq<Pair>): Weighted {
    Sum(Contribution, pairs)
  }

  function Others(pairs: seq<Pair>, trigger: Pair): seq<Pair> {
    if pairs == [] then []
    else
      var last := pairs[|pairs| - 1];
      Others(pairs[..|pairs| - 1], trigger) + if last.address != trigger.address then [last] else []
  }

  function DeltaBps(poolImplied: real, fair: real): real {
    if fair > 0.0 then (poolImplied - fair) / fair * 10_000.0 else 0.0
  }

  /** The reference price and the deviation from it in basis points. */
  function Reference(others: seq<Pair>, poolImplied: real): (real, real) {
    if others == [] then (poolImplied, 0.0)
    else
      var w := Fold(others);
      if w.total <= 0.0 then (poolImplied, 0.0)
      else (w.sum / w.total, DeltaBps(poolImplied, w.sum / w.total))
  }

  function Observe(pairs: seq<Pair>, dex: Dex, address: Option<string>): Result<Observed, Failed> {
    if pairs == [] then Failure(NoPairs)
    else
      match PickTriggerPair(pairs, dex, address)
      case None => Failure(NoTriggerPair)
      case Some(trigger) =>
        match trigger.priceUsd
        case None => Failure(NoTriggerPrice)
        case Some(poolImplied) =>
          var others := Others(pairs, trigger);
          var (fair, delta) := Reference(others, poolImplied);
          Success(Observed(trigger.address, poolImplied, fair, delta, trigger.Liquidity(), |others|))
  }

  /** Every contributing pair's price lies between `low` and `high`. */
  predicate PricesWithin(pairs: seq<Pair>, low: real, high: real) {
    forall p | p in pairs && p.Contributes() :: low <= p.Price() <= high
  }

  /** The sum lies between `low` and `high` times the total weight. */
  predicate Bracketed(w: Weighted, low: real, high: real) {
    low * w.total <= w.sum <= high * w.total
  }

  lemma BracketedPlus(a: Weighted, b: Weighted, low: real, high: real)
    requires Bracketed(a, low, high) && Bracketed(b, low, high)
    ensures Bracketed(Plus(a, b), low, high)
  {
    assert low * (a.total + b.total) == low * a.total + low * b.total;
    assert high * (a.total + b.total) == high * a.total + high * b.total;
  }

  lemma BracketedContribution(p: Pair, low: real, high: real)
    requires p.Contributes() ==> low <= p.Price() <= high
    ensures Bracketed(Contribution(p), low, high)
  {
    if p.Contributes() {
      assert low * p.Liquidity() <= p.Price() * p.Liquidity() <= high * p.Liquidity();
    }
  }

  /** What holds of nothing and survives addition holds of a sum. */
  lemma {:induction false} SumKeeps(weigh: Pair -> Weighted, holds: Weighted -> bool, pairs: seq<Pair>)
    requires holds(Weighted(0.0, 0.0))
    requires forall a, b | holds(a) && holds(b) :: holds(Plus(a, b))
    requires forall p | p in pairs :: holds(weigh(p))
    ensures holds(Sum(weigh, pairs))
    decreases |pairs|
  {
    if pairs != [] {
      SumKeeps(weigh, holds, pairs[..|pairs| - 1]);
    }
  }

  /** A total of non-negative weights is positive exactly when one of them is. */
  lemma {:induction false} TotalIsPositiveIff(weigh: Pair -> Weighted, pairs: seq<Pair>)
    requires forall p | p in pairs :: weigh(p).total >= 0.0
    ensures Sum(weigh, pairs).total >= 0.0
    ensures Sum(weigh, pairs).total > 0.0 <==> exists p | p in pairs :: weigh(p).total > 0.0
    decreases |pairs|
  {
    if pairs != [] {
      var n := |pairs| - 1;
      TotalIsPositiveIff(weigh, pairs[..n]);
      assert pairs == pairs[..n] + [pairs[n]];
    }
  }

  lemma FoldIsBracketed(pairs: seq<Pair>, low: real, high: real)
    requires PricesWithin(pairs, low, high)
    ensures Bracketed(Fold(pairs), low, high)
  {
    var holds := (w: Weighted) => Bracketed(w, low, high);
    forall a, b | holds(a) && holds(b)
      ensures holds(Plus(a, b))
    {
      BracketedPlus(a, b, low, high);
    }
    forall p | p in pairs
      ensures holds(Contribution(p))
    {
      BracketedContribution(p, low, high);
    }
    SumKeeps(Contribution, holds, pairs);
  }

  lemma FoldHasWeightIff(pairs: seq<Pair>)
    ensures Fold(pairs).total > 0.0 <==> exists p | p in pairs :: p.Contributes()
  {
    TotalIsPositiveIff(Contribution, pairs);
    if p :| p in pairs && p.Contributes() {
      assert Contribution(p).total > 0.0;
    }
  }

  lemma Quotient(sum: real, total: real, low: real, high: real)
    requires 0.0 < total && low * total <= sum <= high * total
    ensures low <= sum / total <= high
  {
    var q := sum / total;
    assert q * total == sum;
    assert (q - low) * total == sum - low * total;
    assert (high - q) * total == high * total - sum;
    SignOfFactor(q - low, total);
    SignOfFactor(high - q, total);
  }

  lemma SignOfFactor(a: real, total: real)
    requires 0.0 < total && 0.0 <= a * total
    ensures 0.0 <= a
  {
  }

  /** The deviation leads from the fair price back to the pool's price, and has the sign of their difference. */
  lemma DeltaMeaning(pool: real, fair: real)
    requires fair > 0.0
    ensures fair * (1.0 + DeltaBps(pool, fair) / 10_000.0) == pool
    ensures (DeltaBps(pool, fair) > 0.0 <==> pool > fair) && (DeltaBps(pool, fair) < 0.0 <==> pool < fair)
  {
    var ratio := (pool - fair) / fair;
    assert ratio * fair == pool - fair;
    assert DeltaBps(pool, fair) / 10_000.0 == ratio;
    assert ratio > 0.0 <==> pool - fair > 0.0;
    assert ratio < 0.0 <==> pool - fair < 0.0;
  }

  /**
    Any bounds on the other pairs' contributing prices bound the fair price, and
    the deviation has the sign of the difference.  With no contributing pair the
    reference is the pool itself.
   */
  lemma FairPriceIsAMean(others: seq<Pair>, poolImplied: real, low: real, high: real)
    requires PricesWithin(others, low, high) && 0.0 < low
    ensures var (fair, delta) := Reference(others, poolImplied);
            if exists p | p in others :: p.Contributes()
            then
              && low <= fair <= high
              && delta == DeltaBps(poolImplied, fair)
              && (delta > 0.0 <==> poolImplied > fair) && (delta < 0.0 <==> poolImplied < fair)
            else fair == poolImplied && delta == 0.0
  {
    FoldIsBracketed(others, low, high);
    FoldHasWeightIff(others);
    var w := Fold(others);
    if w.total > 0.0 {
      Quotient(w.sum, w.total, low, high);
      DeltaMeaning(poolImplied, w.sum / w.total);
    }
  }

  // ----- the order of the listing does not matter -----

  lemma {:induction false} SumMoved(weigh: Pair -> Weighted, pairs: seq<Pair>, k: nat)
    requires k < |pairs|
    ensures Sum(weigh, pairs) == Plus(Sum(weigh, pairs[..k] + pairs[k + 1..]), weigh(pairs[k]))
    decreases |pairs|
  {
    var n := |pairs| - 1;
    var rest := pairs[..k] + pairs[k + 1..];
    if k == n {
      assert rest == pairs[..n];
    } else {
      SumMoved(weigh, pairs[..n], k);
      assert rest[..n - 1] == pairs[..n][..k] + pairs[..n][k + 1..];
    }
  }

  /** A listing has the same sum in any order. */
  lemma {:induction false} SumIgnoresOrder(weigh: Pair -> Weighted, a: seq<Pair>, b: seq<Pair>)
    requires multiset(a) == multiset(b)
    ensures Sum(weigh, a) == Sum(weigh, b)
    decreases |a|
  {
    assert |a| == |multiset(a)| == |multiset(b)| == |b|;
    if a != [] {
      var n := |a| - 1;
      assert a == a[..n] + [a[n]];
      assert a[n] in multiset(b);
      var k :| 0 <= k < |b| && b[k] == a[n];
      var rest := b[..k] + b[k + 1..];
      assert b == b[..k] + [b[k]] + b[k + 1..];
      assert multiset(rest) == multiset(b) - multiset{a[n]} == multiset(a[..n]);
      SumIgnoresOrder(weigh, a[..n], rest);
      SumMoved(weigh, b, k);
    }
  }

  lemma {:induction false} OthersIsFilter(pairs: seq<Pair>, trigger: Pair, p: Pair)
    ensures multiset(Others(pairs, trigger))[p] == if p.address != trigger.address then multiset(pairs)[p] else 0
    decreases |pairs|
  {
    if pairs != [] {
      var n := |pairs| - 1;
      OthersIsFilter(pairs[..n], trigger, p);
      assert pairs == pairs[..n] + [pairs[n]];
    }
  }

  lemma OthersIgnoreOrder(a: seq<Pair>, b: seq<Pair>, trigger: Pair)
    requires multiset(a) == multiset(b)
    ensures multiset(Others(a, trigger)) == multiset(Others(b, trigger))
  {
    forall p
      ensures multiset(Others(a, trigger))[p] == multiset(Others(b, trigger))[p]
    {
      OthersIsFilter(a, trigger, p);
      OthersIsFilter(b, trigger, p);
    }
  }

  /** The fair price and the deviation do not depend on the order of the listing. */
  lemma ReferenceIgnoresOrder(a: seq<Pair>, b: seq<Pair>, trigger: Pair, poolImplied: real)
    requires multiset(a) == multiset(b)
    ensures Reference(Others(a, trigger), poolImplied) == Reference(Others(b, trigger), poolImplied)
  {
    var othersA, othersB := Others(a, trigger), Others(b, trigger);
    OthersIgnoreOrder(a, b, trigger);
    SumIgnoresOrder(Contribution, othersA, othersB);
    assert |othersA| == |multiset(othersA)| == |multiset(othersB)| == |othersB|;
    assert othersA == [] <==> othersB == [];
  }

  lemma TriggerIsListed(pairs: seq<Pair>, dex: Dex, address: Option<string>)
    requires PickTriggerPair(pairs, dex, address).Some?
    ensures PickTriggerPair(pairs, dex, address).value in pairs
  {
    var k := MostLiquidAt(pairs, dex);
    if address.Some? {
      FoundIsFirst(pairs, address.value);
    }
  }

  lemma OtherMembers(pairs: seq<Pair>, trigger: Pair)
    ensures forall p :: p in Others(pairs, trigger) <==> p in pairs && p.address != trigger.address
  {
    forall p
      ensures p in Others(pairs, trigger) <==> p in pairs && p.address != trigger.address
    {
      OthersIsFilter(pairs, trigger, p);
      assert p in Others(pairs, trigger) <==> p in multiset(Others(pairs, trigger));
      assert p in pairs <==> p in multiset(pairs);
    }
  }

  predicate HasReference(pairs: seq<Pair>, address: string) {
    exists p | p in pairs :: p.address != address && p.Contributes()
  }

  /** Every contributing pair at another address has its price between `low` and `high`. */
  predicate PricesElsewhere(pairs: seq<Pair>, address: string, low: real, high: real) {
    forall p | p in pairs && p.address != address && p.Contributes() :: low <= p.Price() <= high
  }

  function CountElsewhere(pairs: seq<Pair>, address: string): nat {
    if pairs == [] then 0
    else (if pairs[0].address != address then 1 else 0) + CountElsewhere(pairs[1..], address)
  }

  lemma {:induction false} CountAppend(pairs: seq<Pair>, p: Pair, address: string)
    ensures CountElsewhere(pairs + [p], address)
         == CountElsewhere(pairs, address) + if p.address != address then 1 else 0
    decreases |pairs|
  {
    if pairs == [] {
      assert ([] + [p])[1..] == [];
    } else {
      assert (pairs + [p])[1..] == pairs[1..] + [p];
      CountAppend(pairs[1..], p, address);
    }
  }

  lemma {:induction false} OthersCounted(pairs: seq<Pair>, trigger: Pair)
    ensures |Others(pairs, trigger)| == CountElsewhere(pairs, trigger.address)
    decreases |pairs|
  {
    if pairs != [] {
      var n := |pairs| - 1;
      OthersCounted(pairs[..n], trigger);
      assert pairs == pairs[..n] + [pairs[n]];
      CountAppend(pairs[..n], pairs[n], trigger.address);
    }
  }

  lemma ReferenceOfListing(
    pairs: seq<Pair>, trigger: Pair, others: seq<Pair>, poolImplied: real, low: real, high: real)
    requires forall p :: p in others <==> p in pairs && p.address != trigger.address
    requires 0.0 < low && PricesElsewhere(pairs, trigger.address, low, high)
    ensures var (fair, delta) := Reference(others, poolImplied);
            if HasReference(pairs, trigger.address)
            then low <= fair <= high && delta == DeltaBps(poolImplied, fair)
            else fair == poolImplied && delta == 0.0
  {
    assert HasReference(pairs, trigger.address) <==> exists p | p in others :: p.Contributes();
    FairPriceIsAMean(others, poolImplied, low, high);
  }

  /**
    A successful observation: the trigger pair is one of the listing, reported with
    its price and liquidity, and its price is compared with the market of all pairs
    at other addresses, which are counted.
   */
  lemma ObservationMeaning(pairs: seq<Pair>, dex: Dex, address: Option<string>, low: real, high: real)
    requires Observe(pairs, dex, address).Success?
    requires 0.0 < low && PricesElsewhere(pairs, Observe(pairs, dex, address).value.poolAddress, low, high)
    ensures var o := Observe(pairs, dex, address).value;
            && (exists p | p in pairs ::
                  p.address == o.poolAddress && p.priceUsd == Some(o.poolImplied) && p.Liquidity() == o.poolLiquidity)
            && o.otherPairs == CountElsewhere(pairs, o.poolAddress)
            && if HasReference(pairs, o.poolAddress)
               then low <= o.fairPrice <= high && o.deltaBps == DeltaBps(o.poolImplied, o.fairPrice)
               else o.fairPrice == o.poolImplied && o.deltaBps == 0.0
  {
    var trigger := PickTriggerPair(pairs, dex, address).value;
    var others := Others(pairs, trigger);
    TriggerIsListed(pairs, dex, address);
    OtherMembers(pairs, trigger);
    OthersCounted(pairs, trigger);
    ReferenceOfListing(pairs, trigger, others, trigger.priceUsd.value, low, high);
  }

  // ----- names without case -----

  /** The same character, or the same letter of the alphabet in two cases. */
  predicate SameLetter(a: char, b: char) {
    || a == b
    || ('A' <= a <= 'Z' && b as int == a as int + 32)
    || ('A' <= b <= 'Z' && a as int == b as int + 32)
  }

  lemma NamesAgreeIff(a: string, b: string)
    ensures EqIgnoreCase(a, b) <==> |a| == |b| && forall i | 0 <= i < |a| :: SameLetter(a[i], b[i])
  {
    assert forall i | 0 <= i < |a| && |a| == |b| :: SameLetter(a[i], b[i]) <==> Lower(a[i]) == Lower(b[i]);
  }

  lemma ListedInitial(dex: Dex)
    ensures dex.UnknownDex? <==> ListedName(dex) == ""
    ensures !dex.UnknownDex? ==>
              |ListedName(dex)| == (match dex case Orca => 4 case PumpSwap => 8 case _ => 7)
              && ListedName(dex)[0] == (match dex case Raydium | RaydiumClmm => 'r' case Orca => 'o'
                                                  case Jupiter => 'j' case Meteora => 'm' case _ => 'p')
  {
  }

  /** No listing is on two DEXs, but for Raydium's two kinds of pool, which share a name. */
  lemma OnOneDex(p: Pair, a: Dex, b: Dex)
    requires OnDex(p, a)
    ensures OnDex(p, b) <==> a == b || {a, b} == {Raydium, RaydiumClmm}
  {
    ListedInitial(a);
    ListedInitial(b);
    if OnDex(p, b) && p.dexId != "" {
      assert Lower(p.dexId[0]) == Lower(ListedName(a)[0]) == Lower(ListedName(b)[0]);
    }
  }

  // ----- which pair is observed -----

  ghost predicate Lists(pairs: seq<Pair>, address: Option<string>) {
    address.Some? && exists p | p in pairs :: p.address == address.value
  }

  /** The first pair at the address if it is listed, and else the last of the most liquid pairs of the DEX. */
  ghost predicate IsTrigger(pairs: seq<Pair>, dex: Dex, address: Option<string>, k: int) {
    if Lists(pairs, address)
    then 0 <= k < |pairs| && pairs[k].address == address.value
         && forall j | 0 <= j < k :: pairs[j].address != address.value
    else IsLastMostLiquid(pairs, dex, k)
  }

  lemma TriggerAt(pairs: seq<Pair>, dex: Dex, address: Option<string>) returns (k: int)
    ensures match PickTriggerPair(pairs, dex, address)
            case None => forall j :: !IsTrigger(pairs, dex, address, j)
            case Some(trigger) => IsTrigger(pairs, dex, address, k) && pairs[k] == trigger
  {
    k := MostLiquidAt(pairs, dex);
    if address.Some? {
      FoundIsFirst(pairs, address.value);
      if FindAddress(pairs, address.value).Some? {
        assert Lists(pairs, address);
        k :| 0 <= k < |pairs| && pairs[k] == FindAddress(pairs, address.value).value
             && forall j | 0 <= j < k :: pairs[j].address != address.value;
      }
    }
  }

  lemma OneTrigger(pairs: seq<Pair>, dex: Dex, address: Option<string>, j: int, k: int)
    requires IsTrigger(pairs, dex, address, j) && IsTrigger(pairs, dex, address, k)
    ensures j == k
  {
  }

  /** An observation is of the trigger pair, and fails exactly when there is none or it has no price. */
  lemma ObservedIs(pairs: seq<Pair>, dex: Dex, address: Option<string>, k: int)
    ensures Observe(pairs, dex, address) == Failure(NoPairs) <==> pairs == []
    ensures Observe(pairs, dex, address) == Failure(NoTriggerPair) <==>
              pairs != [] && forall j :: !IsTrigger(pairs, dex, address, j)
    ensures IsTrigger(pairs, dex, address, k) ==>
              match pairs[k].priceUsd
              case None => Observe(pairs, dex, address) == Failure(NoTriggerPrice)
              case Some(price) =>
                && Observe(pairs, dex, address).Success?
                && var o := Observe(pairs, dex, address).value;
                   o.poolAddress == pairs[k].address && o.poolImplied == price
                   && o.poolLiquidity == match pairs[k].liquidityUsd case Some(usd) => usd case None => 0.0
  {
    var at := TriggerAt(pairs, dex, address);
    if IsTrigger(pairs, dex, address, k) && PickTriggerPair(pairs, dex, address).Some? {
      OneTrigger(pairs, dex, address, at, k);
    }
  }

  // ----- the fair price is the weighted mean -----

  /** How far a pair with a positive price and liquidity pulls away from a price, weighted by its liquidity. */
  function PullOf(p: Pair, address: string, price: real): real {
    match (p.priceUsd, p.liquidityUsd)
    case (Some(own), Some(weight)) =>
      if p.address != address && own > 0.0 && weight > 0.0 then weight * (own - price) else 0.0
    case _ => 0.0
  }

  function Pull(pairs: seq<Pair>, address: string, price: real): real {
    if pairs == [] then 0.0
    else Pull(pairs[..|pairs| - 1], address, price) + PullOf(pairs[|pairs| - 1], address, price)
  }

  lemma PullFrom(w: Weighted, p: Pair, price: real)
    ensures Plus(w, Contribution(p)).sum - price * Plus(w, Contribution(p)).total
         == w.sum - price * w.total + if p.Contributes() then p.Liquidity() * (p.Price() - price) else 0.0
  {
    assert price * (w.total + p.Liquidity()) == price * w.total + price * p.Liquidity();
    assert p.Liquidity() * (p.Price() - price) == p.Price() * p.Liquidity() - price * p.Liquidity();
  }

  /** How a sum pulls away from a price. */
  function Away(w: Weighted, price: real): real {
    w.sum - price * w.total
  }

  lemma AwayWith(before: seq<Pair>, p: Pair, address: string, price: real)
    ensures Away(Fold(if p.address != address then before + [p] else before), price)
         == Away(Fold(before), price) + PullOf(p, address, price)
  {
    if p.address != address {
      assert (before + [p])[..|before|] == before;
      PullFrom(Fold(before), p, price);
    }
  }

  lemma {:induction false} PullIs(pairs: seq<Pair>, trigger: Pair, price: real)
    ensures Pull(pairs, trigger.address, price) == Away(Fold(Others(pairs, trigger)), price)
    decreases |pairs|
  {
    if pairs != [] {
      var n := |pairs| - 1;
      PullIs(pairs[..n], trigger, price);
      AwayWith(Others(pairs[..n], trigger), pairs[n], trigger.address, price);
      assert Others(pairs[..n], trigger) + [] == Others(pairs[..n], trigger);
    }
  }

  lemma Balanced(w: Weighted, price: real)
    requires 0.0 < w.total && price == w.sum / w.total
    ensures Away(w, price) == 0.0
  {
  }

  lemma FairIs(pairs: seq<Pair>, trigger: Pair, poolImplied: real)
    requires HasReference(pairs, trigger.address)
    ensures var w := Fold(Others(pairs, trigger));
            w.total > 0.0 && Reference(Others(pairs, trigger), poolImplied).0 == w.sum / w.total
  {
    OtherMembers(pairs, trigger);
    FoldHasWeightIff(Others(pairs, trigger));
  }

  lemma FairBalances(pairs: seq<Pair>, trigger: Pair, poolImplied: real)
    requires HasReference(pairs, trigger.address)
    ensures Pull(pairs, trigger.address, Reference(Others(pairs, trigger), poolImplied).0) == 0.0
  {
    var price := Reference(Others(pairs, trigger), poolImplied).0;
    FairIs(pairs, trigger, poolImplied);
    Balanced(Fold(Others(pairs, trigger)), price);
    PullIs(pairs, trigger, price);
  }

  /**
    At the fair price the other pairs pull equally to both sides, each weighted by its
    liquidity: it is their liquidity-weighted mean.
   */
  lemma FairPriceBalances(pairs: seq<Pair>, dex: Dex, address: Option<string>)
    requires Observe(pairs, dex, address).Success?
    requires HasReference(pairs, Observe(pairs, dex, address).value.poolAddress)
    ensures var o := Observe(pairs, dex, address).value; Pull(pairs, o.poolAddress, o.fairPrice) == 0.0
  {
    var trigger := PickTriggerPair(pairs, dex, address).value;
    FairBalances(pairs, trigger, trigger.priceUsd.value);
  }
}
