/**
  The sqrt-price approximation used for Orca Whirlpool and Raydium CLMM pools
  (crates/arb-feed/src/pool_decoder.rs), over exact reals.
 */
module ConcentratedLiquidity {
  import opened MachineInts

  const TWO_64: real := 18446744073709551616.0

  /** Price of A in B from a Q64.64 square root. */
  function PriceOf(sqrtPrice: U128): real {
    var root := sqrtPrice as real / TWO_64;
    root * root
  }

  function Part(whole: real, fraction: real): (part: real)
    ensures 0.0 <= whole && 0.0 <= fraction <= 1.0 ==> 0.0 <= part <= whole
  {
    whole * fraction
  }

  /** The input after a proportional fee. */
  function NetOfFee(amountIn: U64, feeBps: real): (net: real)
    ensures 0.0 <= feeBps <= 10_000.0 ==> 0.0 <= net <= amountIn as real
  {
    Part(amountIn as real, 1.0 - feeBps / 10_000.0)
  }

  /** 10 bps are held back for tick crossings. */
  function WithSlippage(output: real): U64 {
    SaturatingU64(output - output * 0.001)
  }

  function OutputAtPrice(price: real, amountIn: U64, feeBps: real, aToB: bool): U64 {
    var net := NetOfFee(amountIn, feeBps);
    if aToB then WithSlippage(net * price)
    else if price <= 0.0 then 0
    else WithSlippage(net / price)
  }

  function WhirlpoolSwapOutput(sqrtPrice: U128, liquidity: U128, amountIn: U64, feeBps: real, aToB: bool): U64 {
    if sqrtPrice == 0 || liquidity == 0 || amountIn == 0 then 0
    else OutputAtPrice(PriceOf(sqrtPrice), amountIn, feeBps, aToB)
  }

  lemma PricePositive(sqrtPrice: U128)
    requires 0 < sqrtPrice
    ensures PriceOf(sqrtPrice) > 0.0
  {
    var root := sqrtPrice as real / TWO_64;
    assert root > 0.0;
  }

  /** Saturating and truncating a slipped output only lowers it. */
  lemma CastBound(output: real, cap: real)
    requires 0.0 <= output <= cap
    ensures WithSlippage(output) as real <= cap
  {
  }

  lemma DirectLeg(input: real, net: real, price: real)
    requires 0.0 <= net <= input && price > 0.0
    ensures WithSlippage(net * price) as real <= input * price
  {
    assert 0.0 <= net * price <= input * price;
    CastBound(net * price, input * price);
  }

  lemma InverseLeg(input: real, net: real, price: real)
    requires 0.0 <= net <= input && price > 0.0
    ensures WithSlippage(net / price) as real * price <= input
  {
    var output := net / price;
    assert output * price == net;
    assert 0.0 <= output;
    CastBound(output, output);
    ScaleUp(WithSlippage(output) as real, output, price);
  }

  lemma ScaleUp(a: real, b: real, price: real)
    requires a <= b && price > 0.0
    ensures a * price <= b * price
  {
  }

  /** One leg pays at most the amount valued at the pool's own price. */
  lemma LegBound(price: real, a: U64, feeBps: real, aToB: bool)
    requires 0.0 <= feeBps <= 10_000.0 && price > 0.0
    ensures var out := OutputAtPrice(price, a, feeBps, aToB);
            && (aToB ==> out as real <= a as real * price)
            && (!aToB ==> out as real * price <= a as real)
  {
    var net := NetOfFee(a, feeBps);
    if aToB {
      DirectLeg(a as real, net, price);
    } else {
      InverseLeg(a as real, net, price);
    }
  }

  /** What a leg keeps of its input: the fee and the 10 bps held back are gone. */
  function Kept(a: real, feeBps: real): real {
    a * (1.0 - feeBps / 10_000.0) * 0.999
  }

  lemma SlippedAtMost(output: real)
    requires 0.0 <= output
    ensures WithSlippage(output) as real <= output * 0.999
  {
    var slipped := output - output * 0.001;
    assert slipped >= 0.0;
    assert SaturatingU64(slipped) as real <= slipped;
  }

  lemma DirectKept(net: real, price: real)
    requires 0.0 <= net && price > 0.0
    ensures WithSlippage(net * price) as real <= net * 0.999 * price
  {
    assert 0.0 <= net * price;
    SlippedAtMost(net * price);
  }

  lemma InverseKept(net: real, price: real)
    requires 0.0 <= net && price > 0.0
    ensures WithSlippage(net / price) as real * price <= net * 0.999
  {
    var output := net / price;
    assert output * price == net;
    assert 0.0 <= output;
    SlippedAtMost(output);
    ScaleUp(WithSlippage(output) as real, output * 0.999, price);
  }

  /** One leg pays at most what it keeps, valued at the pool's own price. */
  lemma KeptBound(price: real, a: U64, feeBps: real, aToB: bool)
    requires 0.0 <= feeBps <= 10_000.0 && price > 0.0
    ensures var out := OutputAtPrice(price, a, feeBps, aToB);
            && (aToB ==> out as real <= Kept(a as real, feeBps) * price)
            && (!aToB ==> out as real * price <= Kept(a as real, feeBps))
  {
    var net := NetOfFee(a, feeBps);
    if aToB {
      DirectKept(net, price);
    } else {
      InverseKept(net, price);
    }
  }

  lemma SoldThenBought(input: int, mid: int, back: int, price: real)
    requires price > 0.0
    requires mid as real <= input as real * price && back as real * price <= mid as real
    ensures back <= input
  {
  }

  lemma RoundTripAtPrice(price: real, a: U64, feeBps: real, aToB: bool, mid: U64, back: U64)
    requires 0.0 <= feeBps <= 10_000.0 && price > 0.0
    requires mid == OutputAtPrice(price, a, feeBps, aToB) && back == OutputAtPrice(price, mid, feeBps, !aToB)
    ensures back <= a
  {
    if aToB {
      assert mid as real <= a as real * price by {
        LegBound(price, a, feeBps, true);
      }
      assert back as real * price <= mid as real by {
        LegBound(price, mid, feeBps, false);
      }
      SoldThenBought(a, mid, back, price);
    } else {
      assert mid as real * price <= a as real by {
        LegBound(price, a, feeBps, false);
      }
      assert back as real <= mid as real * price by {
        LegBound(price, mid, feeBps, true);
      }
    }
  }

  /** Swapping there and back on unchanged state never returns more than went in. */
  lemma RoundTripNeverGains(sqrtPrice: U128, liquidity: U128, a: U64, feeBps: real, aToB: bool)
    requires 0.0 <= feeBps <= 10_000.0
    ensures var mid := WhirlpoolSwapOutput(sqrtPrice, liquidity, a, feeBps, aToB);
            WhirlpoolSwapOutput(sqrtPrice, liquidity, mid, feeBps, !aToB) <= a
  {
    if 0 < sqrtPrice {
      PricePositive(sqrtPrice);
      var mid := WhirlpoolSwapOutput(sqrtPrice, liquidity, a, feeBps, aToB);
      var back := WhirlpoolSwapOutput(sqrtPrice, liquidity, mid, feeBps, !aToB);
      if 0 < back {
        RoundTripAtPrice(PriceOf(sqrtPrice), a, feeBps, aToB, mid, back);
      }
    }
  }

  // ----- exactly what a leg pays -----

  lemma DirectOutput(price: real, a: U64, feeBps: real)
    requires 0.0 <= feeBps <= 10_000.0 && price > 0.0
    ensures NearestU64(OutputAtPrice(price, a, feeBps, true), Kept(a as real, feeBps) * price)
  {
    var net := NetOfFee(a, feeBps);
    assert 0.0 <= net * price;
    SlippedIsKept(net, price, net * price);
    CastIsNearest(net * price - net * price * 0.001);
  }

  lemma SlippedIsKept(net: real, price: real, output: real)
    requires output == net * price && 0.0 <= output
    ensures output - output * 0.001 == net * 0.999 * price && 0.0 <= output - output * 0.001
  {
  }

  lemma InverseOutput(price: real, a: U64, feeBps: real)
    requires 0.0 <= feeBps <= 10_000.0 && price > 0.0
    ensures NearestU64(OutputAtPrice(price, a, feeBps, false), Kept(a as real, feeBps) / price)
  {
    var net := NetOfFee(a, feeBps);
    var output := net / price;
    assert output * price == net;
    assert 0.0 <= output;
    var kept := net * 0.999 / price;
    assert kept * price == net * 0.999;
    SameQuotient(kept, output - output * 0.001, price);
    CastIsNearest(kept);
  }

  lemma SameQuotient(x: real, y: real, price: real)
    requires price > 0.0 && x * price == y * price
    ensures x == y
  {
  }

  /** The whole units that the kept input is worth at the price of A in B. */
  predicate Pays(out: int, kept: real, price: real, aToB: bool)
    requires price > 0.0
  {
    NearestU64(out, if aToB then kept * price else kept / price)
  }

  lemma OutputAt(price: real, a: U64, feeBps: real, aToB: bool)
    requires 0.0 <= feeBps <= 10_000.0 && price > 0.0
    ensures Pays(OutputAtPrice(price, a, feeBps, aToB), Kept(a as real, feeBps), price, aToB)
  {
    if aToB {
      DirectOutput(price, a, feeBps);
    } else {
      InverseOutput(price, a, feeBps);
    }
  }

  lemma PriceIs(sqrtPrice: U128, root: real, price: real)
    requires root * 18446744073709551616.0 == sqrtPrice as real && price == root * root
    ensures PriceOf(sqrtPrice) == price && (0 < sqrtPrice ==> price > 0.0)
  {
    if 0 < sqrtPrice {
      PricePositive(sqrtPrice);
    }
  }

  /**
    Nothing is paid on an empty pool, at a price of zero or for nothing; everything
    else pays the whole units that the kept input is worth at the squared root price.
   */
  lemma OutputIs(
    sqrtPrice: U128, liquidity: U128, a: U64, feeBps: real, aToB: bool, root: real, price: real, out: U64)
    requires 0.0 <= feeBps <= 10_000.0
    requires root * 18446744073709551616.0 == sqrtPrice as real && price == root * root
    requires out == WhirlpoolSwapOutput(sqrtPrice, liquidity, a, feeBps, aToB)
    ensures sqrtPrice == 0 || liquidity == 0 || a == 0 ==> out == 0
    ensures 0 < sqrtPrice && 0 < liquidity && 0 < a ==> price > 0.0 && Pays(out, Kept(a as real, feeBps), price, aToB)
  {
    PriceIs(sqrtPrice, root, price);
    if 0 < sqrtPrice && 0 < liquidity && 0 < a {
      OutputAt(price, a, feeBps, aToB);
    }
  }

  predicate LessThanOne(kept: real, price: real, aToB: bool) {
    if aToB then kept * price < 1.0 else kept < price
  }

  /** The output is nothing exactly on an empty pool, at a price of zero, or when less than one unit is left. */
  lemma NothingPaidIff(
    sqrtPrice: U128, liquidity: U128, a: U64, feeBps: real, aToB: bool, root: real, price: real, out: U64)
    requires 0.0 <= feeBps <= 10_000.0
    requires root * 18446744073709551616.0 == sqrtPrice as real && price == root * root
    requires out == WhirlpoolSwapOutput(sqrtPrice, liquidity, a, feeBps, aToB)
    ensures out == 0 <==>
              || sqrtPrice == 0 || liquidity == 0 || a == 0
              || LessThanOne(Kept(a as real, feeBps), price, aToB)
  {
    OutputIs(sqrtPrice, liquidity, a, feeBps, aToB, root, price, out);
    if 0 < sqrtPrice && 0 < liquidity && 0 < a {
      PaysNothingIff(out, Kept(a as real, feeBps), price, aToB);
    }
  }

  lemma PaysNothingIff(out: U64, kept: real, price: real, aToB: bool)
    requires price > 0.0 && Pays(out, kept, price, aToB)
    ensures out == 0 <==> LessThanOne(kept, price, aToB)
  {
    BelowOneIff(kept, price);
  }

  lemma BelowOneIff(n: real, d: real)
    requires d > 0.0
    ensures n / d < 1.0 <==> n < d
  {
    assert n / d * d == n;
  }
}
