/**
  The exact fee an Orca pool must charge for the detector never to hide a profitable
  route through it, and what the default cost model makes of the rest.
 */
module OrcaFees {
  import opened MachineInts
  import opened Wrappers
  import opened Amm
  import opened AmmMachine
  import opened Types
  import opened Prices
  import opened FeeFilter
  import opened Quoter
  import opened RouteFilter
  import Costs = CostModel
  import CL = ConcentratedLiquidity

  /** Smallest fee rate, in hundredths of a basis point, at which routes to this DEX are never hidden. */
  function MinimumRate(partner: Dex): nat {
    match partner
    case Raydium | PumpSwap => 1_483
    case PumpFun => 1_371
    case RaydiumClmm => 484
    case _ => 0
  }

  predicate HasRate(v: AnyVenue, rate: U16) {
    v.Ticks? && v.pool.Orca? && v.feeRate == rate
  }

  /** Every Orca leg charges at least the minimum against its partner. */
  predicate RatesSuffice(from: AnyVenue, to: AnyVenue) {
    && (from.Ticks? && from.pool.Orca? ==> MinimumRate(to.Dex()) <= from.feeRate)
    && (to.Ticks? && to.pool.Orca? ==> MinimumRate(from.Dex()) <= to.feeRate)
  }

  lemma KeepOf(v: AnyVenue)
    requires v.Valid()
    ensures match v.Dex()
            case PumpFun => v.Keep() == 0.99
            case RaydiumClmm => v.Keep() == 0.9965025
            case Orca => v.Ticks? && v.Keep() == (1.0 - v.feeRate as real / 1_000_000.0) * 0.999
            case _ => v.Keep() == 0.9975 && (v.Dex().Raydium? || v.Dex().PumpSwap?)
  {
  }

  /** Whatever the direction, venues on different DEXs cover the estimate when Orca's rate suffices. */
  lemma SufficientRatesCover(from: AnyVenue, to: AnyVenue)
    requires from.Valid() && to.Valid() && from.Dex() != to.Dex() && RatesSuffice(from, to)
    ensures FeesCoverEstimate(from, to)
  {
    KeepOf(from);
    KeepOf(to);
    if from.Dex().Orca? {
      OrcaCovers(from.feeRate, to.Dex(), from.Keep(), to.Keep(), FeeFactor(from, to));
    } else if to.Dex().Orca? {
      OrcaCovers(to.feeRate, from.Dex(), to.Keep(), from.Keep(), FeeFactor(from, to));
      Swap(to.Keep(), from.Keep(), FeeFactor(from, to));
    }
  }

  lemma Swap(a: real, b: real, m: real)
    ensures a * b * m == b * a * m
  {
  }

  lemma OrcaCovers(rate: nat, partner: Dex, k1: real, k2: real, m: real)
    requires k1 == (1.0 - rate as real / 1_000_000.0) * 0.999 && MinimumRate(partner) <= rate
    requires match partner
             case Raydium | PumpSwap => k2 == 0.9975 && m == 1.005
             case PumpFun => k2 == 0.99 && m == 1.0125
             case RaydiumClmm => k2 == 0.9965025 && m == 1.005
             case _ => false
    ensures Outweighs(k1, k2, m)
  {
    var r := rate as real;
    assert MinimumRate(partner) as real <= r;
    assert k1 == 0.999 - r * 0.000000999;
    match partner
    case Raydium | PumpSwap => assert k1 * 0.9975 * 1.005 == k1 * 1.0024875;
    case PumpFun => assert k1 * 0.99 * 1.0125 == k1 * 1.002375;
    case RaydiumClmm => assert k1 * 0.9965025 * 1.005 == k1 * 1.0014850125;
    case _ =>
  }

  /** On different DEXs, with sufficient rates, every gaining route is flagged. */
  lemma DifferentDexesAreFlagged(from: AnyVenue, to: AnyVenue, a: U64, tokenDecimals: nat, solUsd: real)
    requires from.Valid() && to.Valid() && solUsd > 0.0 && DecimalsMatch(from, to, tokenDecimals)
    requires from.Dex() != to.Dex() && RatesSuffice(from, to)
    requires a < to.Sell(from.Buy(a))
    ensures Flagged(from, to, tokenDecimals, solUsd)
  {
    SufficientRatesCover(from, to);
    FilterIsSoundOnAllVenues(from, to, a, tokenDecimals, solUsd);
  }

  // ----- a lower rate hides a route -----

  /** An Orca pool at one lamport per unit. */
  function OrcaSide(rate: U16): AnyVenue {
    Ticks(Orca, 0x1_0000_0000_0000_0000, 1, rate, true)
  }

  /** A partner whose price is higher by just the detector's estimate (on the CLMM, a hair less). */
  function PartnerSide(partner: Dex): AnyVenue {
    match partner
    case PumpFun => Reserves(Venue(PumpFun, 1_012_500_000_000_000_000, 1_000_000_000_000_000_000))
    case RaydiumClmm => Ticks(RaydiumClmm, 18_492_803_427_545_907_200, 1, 0, false)
    case _ => Reserves(Venue(partner, 1_005_000_000_000_000_000, 1_000_000_000_000_000_000))
  }

  predicate Partner(dex: Dex) {
    dex.Raydium? || dex.PumpSwap? || dex.PumpFun? || dex.RaydiumClmm?
  }

  const STAKE: U64 := 1_000_000_000

  lemma OneToOne()
    ensures CL.PriceOf(0x1_0000_0000_0000_0000) == 1.0
  {
    assert 0x1_0000_0000_0000_0000 as real / CL.TWO_64 == 1.0;
  }

  lemma OrcaBuys(rate: U16)
    requires rate <= 1_482
    ensures OrcaSide(rate).Buy(STAKE) == 999_000_000 - 999 * rate
  {
    OneToOne();
    var fee := WhirlpoolFeeBps(rate);
    assert fee == rate as real / 100.0;
    OrcaPays(rate, fee, CL.NetOfFee(STAKE, fee), 999_000_000 - 999 * rate);
  }

  lemma OrcaPays(rate: nat, fee: real, net: real, out: nat)
    requires rate <= 1_482 && fee == rate as real / 100.0 && net == 1_000_000_000.0 * (1.0 - fee / 10_000.0)
    requires out == 999_000_000 - 999 * rate
    ensures CL.WithSlippage(net * 1.0) == out
  {
    assert net * 1.0 == net;
    assert net - net * 0.001 == out as real;
    FloorIs(out as real, out);
  }

  /** The price of the CLMM partner. */
  const ALMOST: real := 18_538_977_786_180_255_625.0 / 18_446_744_073_709_551_616.0

  lemma AlmostIsPrice()
    ensures CL.PriceOf(18_492_803_427_545_907_200) == ALMOST && 1.0049999 < ALMOST < 1.005
  {
    assert 18_492_803_427_545_907_200 as real / CL.TWO_64 == 4_305_691_325.0 / 4_294_967_296.0;
  }

  lemma ClmmSells(t: U64)
    requires 998_517_483 <= t <= STAKE
    ensures STAKE < PartnerSide(RaydiumClmm).Sell(t)
  {
    AlmostIsPrice();
    ClmmPays(t as real, CL.NetOfFee(t, 25.0) * ALMOST);
  }

  lemma ClmmPays(t: real, output: real)
    requires 998_517_483.0 <= t <= 1_000_000_000.0 && output == t * 0.9975 * ALMOST
    ensures STAKE < CL.WithSlippage(output)
  {
    assert ALMOST == 1.0 * ALMOST;
    var slipped := output - output * 0.001;
    assert slipped == t * (0.9975 * 0.999 * ALMOST);
    CL.ScaleUp(998_517_483.0, t, 0.9975 * 0.999 * ALMOST);
    assert slipped >= 1_000_000_001.0;
    CastOrder(slipped, 1_000_000_001);
  }

  lemma VaultSells(partner: Dex, t: U64)
    requires (partner.Raydium? || partner.PumpSwap?) && 997_519_482 <= t <= STAKE
    ensures STAKE < PartnerSide(partner).Sell(t)
  {
    var x, y: U64 := 1_000_000_000_000_000_000, 1_005_000_000_000_000_000;
    MachineSwapIsExactIff(x, y, t, CP_FEE_BPS);
    QuotientIsLargest(t * 9_975 * y, x * BPS + t * 9_975, 1_000_000_001);
  }

  lemma CurveSells(t: U64)
    requires 997_631_370 <= t <= STAKE
    ensures STAKE < PartnerSide(PumpFun).Sell(t)
  {
    var x, y: U64 := 1_000_000_000_000_000_000, 1_012_500_000_000_000_000;
    MachineSwapIsExactIff(x, y, t, 0);
    QuotientIsLargest(t * BPS * y, x * BPS + t * BPS, 1_010_101_012);
    NetMonotone(1_010_101_012, ConstantProductSwap(x, y, t, 0));
  }

  lemma PartnerSells(partner: Dex, rate: U16)
    requires Partner(partner) && rate < MinimumRate(partner)
    ensures OrcaSide(rate).Valid() && PartnerSide(partner).Valid()
    ensures STAKE < PartnerSide(partner).Sell(OrcaSide(rate).Buy(STAKE))
  {
    OrcaBuys(rate);
    var t: U64 := 999_000_000 - 999 * rate;
    if partner.PumpFun? {
      CurveSells(t);
    } else if partner.RaydiumClmm? {
      ClmmSells(t);
    } else {
      VaultSells(partner, t);
    }
  }

  lemma NotFlagged(partner: Dex, rate: U16)
    requires Partner(partner)
    ensures OrcaSide(rate).Valid() && PartnerSide(partner).Valid()
    ensures !Flagged(OrcaSide(rate), PartnerSide(partner), PUMPFUN_DECIMALS, 1.0)
  {
    OneToOne();
    AlmostIsPrice();
    FlaggedIff(OrcaSide(rate), PartnerSide(partner), PUMPFUN_DECIMALS, 1.0);
    assert OrcaSide(rate).Ratio() == 1.0;
    assert FeeFactor(OrcaSide(rate), PartnerSide(partner)) == if partner.PumpFun? then 1.0125 else 1.005;
  }

  /** One venue is an Orca pool with this rate, the other one is on the partner DEX. */
  predicate OrcaRoute(from: AnyVenue, to: AnyVenue, partner: Dex, rate: U16) {
    && from.Valid() && to.Valid()
    && ((HasRate(from, rate) && to.Dex() == partner) || (HasRate(to, rate) && from.Dex() == partner))
  }

  /** All gaining routes between an Orca pool with this rate and the partner DEX are flagged. */
  ghost predicate OrcaRoutesAreFlagged(partner: Dex, rate: U16) {
    forall from: AnyVenue, to: AnyVenue, a: U64, tokenDecimals: nat, solUsd: real |
      OrcaRoute(from, to, partner, rate) && solUsd > 0.0 && DecimalsMatch(from, to, tokenDecimals)
      && a < to.Sell(from.Buy(a)) ::
        Flagged(from, to, tokenDecimals, solUsd)
  }

  /**
    The detector hides no gaining route between an Orca pool and another DEX exactly
    when the pool's fee rate reaches the minimum for that DEX: 14.83 bps against
    Raydium and PumpSwap, 13.71 bps against PumpFun, 4.84 bps against Raydium CLMM.
   */
  lemma OrcaRoutesAreFlaggedIff(partner: Dex, rate: U16)
    requires Partner(partner)
    ensures OrcaRoutesAreFlagged(partner, rate) <==> MinimumRate(partner) <= rate
  {
    if MinimumRate(partner) <= rate {
      forall from: AnyVenue, to: AnyVenue, a: U64, tokenDecimals: nat, solUsd: real |
        OrcaRoute(from, to, partner, rate) && solUsd > 0.0 && DecimalsMatch(from, to, tokenDecimals)
        && a < to.Sell(from.Buy(a))
        ensures Flagged(from, to, tokenDecimals, solUsd)
      {
        DifferentDexesAreFlagged(from, to, a, tokenDecimals, solUsd);
      }
    } else {
      PartnerSells(partner, rate);
      NotFlagged(partner, rate);
      assert OrcaRoute(OrcaSide(rate), PartnerSide(partner), partner, rate);
    }
  }

  // ----- two Orca pools -----

  /** What two Orca pools' own fees leave of a million millions. */
  function BothLeave(rate1: U16, rate2: U16): nat {
    NonNegative(1_000_000 - rate1, 1_000_000 - rate2);
    (1_000_000 - rate1) * (1_000_000 - rate2)
  }

  const MOST_LEFT: nat := 997_017_914_432

  lemma OrcaPairCovers(rate1: U16, rate2: U16, k1: real, k2: real)
    requires k1 == (1.0 - rate1 as real / 1_000_000.0) * 0.999 && k2 == (1.0 - rate2 as real / 1_000_000.0) * 0.999
    requires BothLeave(rate1, rate2) <= MOST_LEFT
    ensures Outweighs(k1, k2, 1.005)
  {
    var l1, l2 := (1_000_000 - rate1) as real, (1_000_000 - rate2) as real;
    RealProduct(1_000_000 - rate1, 1_000_000 - rate2);
    assert k1 == l1 * 0.000000999 && k2 == l2 * 0.000000999;
    assert k1 * k2 * 1.005 == l1 * l2 * (0.000000999 * 0.000000999 * 1.005);
    assert l1 * l2 <= 997_017_914_432.0;
  }

  const BIG_STAKE: U64 := 1_000_000_000_000_000_000

  lemma BigBuy(rate: U16)
    ensures OrcaSide(rate).Buy(BIG_STAKE) == 999_000_000_000 * (1_000_000 - rate)
  {
    OneToOne();
    var fee := WhirlpoolFeeBps(rate);
    BigPays(rate, fee, CL.NetOfFee(BIG_STAKE, fee), 999_000_000_000 * (1_000_000 - rate));
  }

  lemma BigPays(rate: U16, fee: real, net: real, out: nat)
    requires fee == rate as real / 100.0 && net == 1_000_000_000_000_000_000.0 * (1.0 - fee / 10_000.0)
    requires out == 999_000_000_000 * (1_000_000 - rate)
    ensures CL.WithSlippage(net * 1.0) == out
  {
    assert net * 1.0 == net;
    assert net - net * 0.001 == out as real;
    FloorIs(out as real, out);
  }

  /** An Orca pool half a percent dearer, as closely as a square root can say. */
  function DearOrca(rate: U16): AnyVenue {
    Ticks(Orca, 18_492_803_431_484_993_637, 1, rate, false)
  }

  const HALF_PERCENT: real :=
    341_983_778_755_543_155_749_888_755_921_930_487_769.0 / 340_282_366_920_938_463_463_374_607_431_768_211_456.0

  lemma HalfPercentIsPrice()
    ensures CL.PriceOf(18_492_803_431_484_993_637) == HALF_PERCENT < 1.005
  {
    var root := 18_492_803_431_484_993_637 as real / CL.TWO_64;
    assert root * root == HALF_PERCENT;
  }

  lemma BigSell(rate1: U16, rate2: U16, t: U64)
    requires MOST_LEFT < BothLeave(rate1, rate2) && t == 999_000_000_000 * (1_000_000 - rate1)
    ensures BIG_STAKE < DearOrca(rate2).Sell(t)
  {
    HalfPercentIsPrice();
    var fee := WhirlpoolFeeBps(rate2);
    var left := (1_000_000 - rate2) as real;
    assert 1.0 - fee / 10_000.0 == left / 1_000_000.0;
    RealProduct(1_000_000 - rate1, 1_000_000 - rate2);
    BigReturns((1_000_000 - rate1) as real, left, t as real, CL.NetOfFee(t, fee), BothLeave(rate1, rate2) as real);
  }

  lemma BigReturns(left1: real, left2: real, t: real, net: real, both: real)
    requires t == 999_000_000_000.0 * left1 && net == t * (left2 / 1_000_000.0)
    requires both == left1 * left2 && 997_017_914_433.0 <= both
    ensures BIG_STAKE < CL.WithSlippage(net * HALF_PERCENT)
  {
    assert net == 999_000.0 * both;
    BigFloor(net, net * HALF_PERCENT);
  }

  lemma BigFloor(net: real, output: real)
    requires net >= 999_000.0 * 997_017_914_433.0 && output == net * HALF_PERCENT
    ensures BIG_STAKE < CL.WithSlippage(output)
  {
    var slipped := output - output * 0.001;
    assert slipped == net * (0.999 * HALF_PERCENT);
    CL.ScaleUp(999_000.0 * 997_017_914_433.0, net, 0.999 * HALF_PERCENT);
    assert slipped >= 1_000_000_000_000_000_001.0;
    CastOrder(slipped, 1_000_000_000_000_000_001);
  }

  lemma OrcaPairHides(rate1: U16, rate2: U16)
    requires MOST_LEFT < BothLeave(rate1, rate2)
    ensures OrcaSide(rate1).Valid() && DearOrca(rate2).Valid()
    ensures BIG_STAKE < DearOrca(rate2).Sell(OrcaSide(rate1).Buy(BIG_STAKE))
    ensures !Flagged(OrcaSide(rate1), DearOrca(rate2), PUMPFUN_DECIMALS, 1.0)
  {
    BigBuy(rate1);
    BigSell(rate1, rate2, OrcaSide(rate1).Buy(BIG_STAKE));
    OneToOne();
    HalfPercentIsPrice();
    FlaggedIff(OrcaSide(rate1), DearOrca(rate2), PUMPFUN_DECIMALS, 1.0);
    assert OrcaSide(rate1).Ratio() == 1.0;
    assert FeeFactor(OrcaSide(rate1), DearOrca(rate2)) == 1.005;
  }

  /** All gaining routes from an Orca pool with the first rate to one with the second are flagged. */
  ghost predicate OrcaPairsAreFlagged(rate1: U16, rate2: U16) {
    forall from: AnyVenue, to: AnyVenue, a: U64, tokenDecimals: nat, solUsd: real |
      from.Valid() && to.Valid() && HasRate(from, rate1) && HasRate(to, rate2) && solUsd > 0.0
      && a < to.Sell(from.Buy(a)) ::
        Flagged(from, to, tokenDecimals, solUsd)
  }

  /** Between two Orca pools, exactly when their fees together leave at most MOST_LEFT. */
  lemma OrcaPairsAreFlaggedIff(rate1: U16, rate2: U16)
    ensures OrcaPairsAreFlagged(rate1, rate2) <==> BothLeave(rate1, rate2) <= MOST_LEFT
  {
    if BothLeave(rate1, rate2) <= MOST_LEFT {
      forall from: AnyVenue, to: AnyVenue, a: U64, tokenDecimals: nat, solUsd: real |
        from.Valid() && to.Valid() && HasRate(from, rate1) && HasRate(to, rate2) && solUsd > 0.0
        && a < to.Sell(from.Buy(a))
        ensures Flagged(from, to, tokenDecimals, solUsd)
      {
        KeepOf(from);
        KeepOf(to);
        OrcaPairCovers(rate1, rate2, from.Keep(), to.Keep());
        FilterIsSoundOnAllVenues(from, to, a, tokenDecimals, solUsd);
      }
    } else {
      OrcaPairHides(rate1, rate2);
      assert HasRate(OrcaSide(rate1), rate1) && HasRate(DearOrca(rate2), rate2);
    }
  }

  // ----- routes that also pay for the default costs -----

  /** Two legs and the estimate together gain less than a third of a percent. */
  predicate Loose(k1: real, k2: real, m: real) {
    k1 * k2 * m <= 1.003
  }

  predicate LittleMore(out: nat, a: nat) {
    out as real <= 1.003 * (a as real + 1.0) + 1.0
  }

  lemma CoversLoosely(from: AnyVenue, to: AnyVenue)
    requires from.Valid() && to.Valid()
    ensures Loose(from.Keep(), to.Keep(), FeeFactor(from, to))
  {
    KeepOf(from);
    KeepOf(to);
    LooseFactor(from.Keep(), to.Keep(), FeeFactor(from, to), from.Dex().PumpFun?, to.Dex().PumpFun?);
  }

  lemma LooseFactor(k1: real, k2: real, m: real, onCurve: bool, toCurve: bool)
    requires 0.0 < k1 && 0.0 < k2
    requires (if onCurve then k1 == 0.99 else k1 <= 0.999) && (if toCurve then k2 == 0.99 else k2 <= 0.999)
    requires m == (10_000.0 + (if onCurve then 100.0 else 25.0) + (if toCurve then 100.0 else 25.0)) / 10_000.0
    ensures Loose(k1, k2, m)
  {
    var top1, top2 := if onCurve then 0.99 else 0.999, if toCurve then 0.99 else 0.999;
    Ordered(k1, top1, k2);
    Ordered(k2, top2, top1);
    Ordered(k1 * k2, top1 * top2, m);
  }

  /** Rounding adds at most one lamport on either curve. */
  lemma LooseReturn(a: nat, gross: nat, k1: real, k2: real, m: real, onCurve: bool, toCurve: bool)
    requires GrossWithin(gross, GrossKeep(toCurve, k2), m, Credit(onCurve, k1, a))
    requires Loose(k1, k2, m) && 0.0 < k1 && 0.0 < k2 && 0.0 < m
    requires (onCurve ==> k1 == 0.99) && (toCurve ==> k2 == 0.99)
    ensures LittleMore(if toCurve then PumpFunNet(gross) else gross, a)
  {
    CreditAtMost(onCurve, k1, a);
    var next := a as real + 1.0;
    var top := TopOfReturn(gross, next, GrossKeep(toCurve, k2), k1, m, Credit(onCurve, k1, a));
    TopIsLittle(next, k1, k2, m, toCurve, top);
    if toCurve {
      NetWithin(gross, a, top);
    }
  }

  lemma TopOfReturn(gross: nat, next: real, keep: real, k1: real, m: real, credit: real) returns (top: real)
    requires GrossWithin(gross, keep, m, credit) && 0.0 < keep && 0.0 < m && credit <= next * k1
    ensures gross as real <= top && top == keep * m * (next * k1)
  {
    var lift := keep * m;
    top := lift * (next * k1);
    assert 0.0 < lift;
    Lifted(credit, next * k1, lift, lift * credit, top);
  }

  lemma TopIsLittle(next: real, k1: real, k2: real, m: real, toCurve: bool, top: real)
    requires 0.0 <= next && Loose(k1, k2, m) && (toCurve ==> k2 == 0.99)
    requires top == GrossKeep(toCurve, k2) * m * (next * k1)
    ensures (if toCurve then 0.99 * top else top) <= 1.003 * next
  {
    var product := k2 * m * (next * k1);
    Combine(next, k1, k2, m, k1 * k2 * m, product);
    ScaledWithin(next, k1 * k2 * m, product);
    if toCurve {
      assert 0.99 * top == product;
    }
  }

  lemma ScaledWithin(next: real, k: real, product: real)
    requires 0.0 <= next && k <= 1.003 && product == next * k
    ensures product <= 1.003 * next
  {
    Ordered(k, 1.003, next);
  }

  lemma NetWithin(gross: nat, a: nat, top: real)
    requires gross as real <= top && 0.99 * top <= 1.003 * (a as real + 1.0)
    ensures LittleMore(PumpFunNet(gross), a)
  {
    assert PumpFunNet(gross) as real <= 0.99 * (gross as real + 1.0);
  }

  lemma CreditAtMost(curve: bool, keep: real, a: nat)
    requires 0.0 < keep && (curve ==> keep == 0.99)
    ensures Credit(curve, keep, a) <= (a as real + 1.0) * keep
  {
  }

  lemma ThresholdIsFar(a: nat, out: nat)
    requires Costs.DefaultThreshold(a) <= out
    ensures !LittleMore(out, a)
  {
    assert 200 * (a + 18_030_000) < 199 * out;
    assert (200 * (a + 18_030_000)) as real < (199 * out) as real;
  }

  /** A route that nets a profit under the default costs is always flagged, whatever the Orca fees. */
  lemma DefaultProfitIsFlagged(from: AnyVenue, to: AnyVenue, a: U64, tokenDecimals: nat, solUsd: real)
    requires from.Valid() && to.Valid() && solUsd > 0.0 && DecimalsMatch(from, to, tokenDecimals)
    requires Costs.DEFAULT.Fits(a) && to.Sell(from.Buy(a)) < I64_LIMIT
    requires 0 < Costs.DEFAULT.Compute(a, to.Sell(from.Buy(a))).netProfitLamports
    ensures Flagged(from, to, tokenDecimals, solUsd)
  {
    Costs.DefaultProfitIff(a, to.Sell(from.Buy(a)));
    ThresholdIsFar(a, to.Sell(from.Buy(a)));
    FlaggedIff(from, to, tokenDecimals, solUsd);
    if !(FeeFactor(from, to) * from.Ratio() < to.Ratio()) {
      UnflaggedReturnsLittle(from, to, a);
    }
  }

  lemma UnflaggedReturnsLittle(from: AnyVenue, to: AnyVenue, a: U64)
    requires from.Valid() && to.Valid() && !(FeeFactor(from, to) * from.Ratio() < to.Ratio())
    ensures LittleMore(to.Sell(from.Buy(a)), a)
  {
    UnflaggedGross(from, to, a);
    CoversLoosely(from, to);
    SellIsNetOfGross(to, from.Buy(a));
    LooseReturn(a, Gross(to, from.Buy(a)), from.Keep(), to.Keep(), FeeFactor(from, to),
                from.Dex().PumpFun?, to.Dex().PumpFun?);
  }
}
