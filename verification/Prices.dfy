/** Venue prices of crates/arb-feed/src/pool_decoder.rs and the detector's spread. */
module Prices {
  import opened MachineInts
  import opened Wrappers
  import opened Amm
  import opened Types
  import CL = ConcentratedLiquidity

  const SOL_DECIMALS: nat := 9
  const PUMPFUN_DECIMALS: nat := 6

  function Pow10(n: nat): (p: real)
    ensures p > 0.0
  {
    if n == 0 then 1.0 else 10.0 * Pow10(n - 1)
  }

  /** Quote amount per base amount, each in whole units. */
  function PerUnit(quote: real, quoteUnit: real, base: real, baseUnit: real): real
    requires 0.0 < base && 0.0 < quoteUnit && 0.0 < baseUnit
  {
    assert base / baseUnit > 0.0;
    (quote / quoteUnit) / (base / baseUnit)
  }

  function RaydiumPriceFromVaults(coin: U64, pc: U64, coinDecimals: nat, pcDecimals: nat): Option<real> {
    if coin == 0 then None
    else Some(PerUnit(pc as real, Pow10(pcDecimals), coin as real, Pow10(coinDecimals)))
  }

  function PumpFunPriceInSol(state: PumpFunState): Option<real> {
    if state.virtualTokenReserves == 0 then None
    else Some(PerUnit(
      state.virtualSolReserves as real, 1_000_000_000.0, state.virtualTokenReserves as real, 1_000_000.0))
  }

  /** Price of A in B from a concentrated pool, adjusted for decimals. */
  function WhirlpoolPrice(sqrtPrice: U128, decimalsA: nat, decimalsB: nat): real {
    CL.PriceOf(sqrtPrice) * (Pow10(decimalsA) / Pow10(decimalsB))
  }

  /** The price of the base token, which need not be A. */
  function OfBase(price: real, baseIsA: bool): real {
    if !baseIsA && price > 0.0 then 1.0 / price else price
  }

  /**
    A spread in basis points.  Dividing by a zero price gives infinity in
    floating point, which passes every threshold.
   */
  datatype Bps = Finite(bps: real) | Infinite
  {
    predicate AtLeast(threshold: real) {
      Infinite? || threshold <= bps
    }

    /** |this - other| < threshold; infinity minus anything is infinite or not a number. */
    predicate Within(other: Bps, threshold: real) {
      Finite? && other.Finite? && -threshold < bps - other.bps < threshold
    }
  }

  function GrossSpreadBps(buyPrice: real, sellPrice: real): Bps {
    if buyPrice == 0.0 then Infinite else Finite((sellPrice - buyPrice) / buyPrice * 10_000.0)
  }

  function NetSpreadBps(buyDex: Dex, buyPrice: real, sellDex: Dex, sellPrice: real): Bps {
    match GrossSpreadBps(buyPrice, sellPrice)
    case Infinite => Infinite
    case Finite(gross) => Finite(gross - (buyDex.FeeBps() + sellDex.FeeBps()))
  }

  // ----- the prices as equations -----

  /** `base` of the base token is worth `quote`, each counted in its own unit. */
  predicate Values(price: real, base: real, quoteUnit: real, quote: real, baseUnit: real) {
    price * base * quoteUnit == quote * baseUnit
  }

  lemma PerUnitMeaning(quote: real, quoteUnit: real, base: real, baseUnit: real)
    requires 0.0 < base && 0.0 < quoteUnit && 0.0 < baseUnit
    ensures Values(PerUnit(quote, quoteUnit, base, baseUnit), base, quoteUnit, quote, baseUnit)
  {
    var x, y := quote / quoteUnit, base / baseUnit;
    assert y > 0.0;
    Undivided(x / y, y, x, base, baseUnit, quote, quoteUnit);
  }

  lemma Undivided(z: real, y: real, x: real, base: real, baseUnit: real, quote: real, quoteUnit: real)
    requires z * y == x && y * baseUnit == base && x * quoteUnit == quote
    ensures z * base * quoteUnit == quote * baseUnit
  {
    assert z * base == z * y * baseUnit;
    assert z * base * quoteUnit == x * quoteUnit * baseUnit;
  }

  /** A vault price values the coin balance, in whole coins, at the quote balance, in whole units. */
  lemma VaultPriceMeaning(coin: U64, pc: U64, coinDecimals: nat, pcDecimals: nat)
    ensures var p := RaydiumPriceFromVaults(coin, pc, coinDecimals, pcDecimals);
            && (p.Some? <==> coin > 0)
            && (p.Some? ==> Values(p.value, coin as real, Pow10(pcDecimals), pc as real, Pow10(coinDecimals)))
  {
    if coin > 0 {
      PerUnitMeaning(pc as real, Pow10(pcDecimals), coin as real, Pow10(coinDecimals));
    }
  }

  /** A curve price values the tokens, at six decimals, at the virtual SOL reserve. */
  lemma CurvePriceMeaning(state: PumpFunState)
    ensures var p := PumpFunPriceInSol(state);
            && (p.Some? <==> state.virtualTokenReserves > 0)
            && (p.Some? ==> Values(p.value, state.virtualTokenReserves as real, 1_000_000_000.0,
                                   state.virtualSolReserves as real, 1_000_000.0))
  {
    if state.virtualTokenReserves > 0 {
      PerUnitMeaning(
        state.virtualSolReserves as real, 1_000_000_000.0, state.virtualTokenReserves as real, 1_000_000.0);
    }
  }

  const TWO_128: real := 340282366920938463463374607431768211456.0

  function Square(n: int): real {
    n as real * n as real
  }

  /** The square of a Q64.64 number is that of the number read as an integer, over 2^128. */
  lemma SquareOfRoot(sqrtPrice: U128)
    ensures CL.PriceOf(sqrtPrice) * TWO_128 == Square(sqrtPrice)
  {
    var root := sqrtPrice as real / 18446744073709551616.0;
    assert root * 18446744073709551616.0 == sqrtPrice as real;
    Squares(root, 18446744073709551616.0, sqrtPrice as real);
  }

  lemma Squares(root: real, unit: real, n: real)
    requires root * unit == n
    ensures root * root * (unit * unit) == n * n
  {
    assert root * root * (unit * unit) == (root * unit) * (root * unit);
  }

  /** A concentrated pool's price of the base token, from whichever side it is. */
  lemma TickPriceMeaning(sqrtPrice: U128, decimalsA: nat, decimalsB: nat, baseIsA: bool)
    requires 0 < sqrtPrice
    ensures var p := OfBase(WhirlpoolPrice(sqrtPrice, decimalsA, decimalsB), baseIsA);
            if baseIsA then Values(p, TWO_128, Pow10(decimalsB), Square(sqrtPrice), Pow10(decimalsA))
            else Values(p, Square(sqrtPrice), Pow10(decimalsA), TWO_128, Pow10(decimalsB))
  {
    CL.PricePositive(sqrtPrice);
    SquareOfRoot(sqrtPrice);
    TickEquations(CL.PriceOf(sqrtPrice), Pow10(decimalsA), Pow10(decimalsB), Square(sqrtPrice),
                  WhirlpoolPrice(sqrtPrice, decimalsA, decimalsB));
  }

  lemma TickEquations(root: real, a: real, b: real, square: real, p: real)
    requires root > 0.0 && a > 0.0 && b > 0.0 && root * TWO_128 == square && p == root * (a / b)
    ensures p > 0.0 && Values(p, TWO_128, b, square, a) && Values(1.0 / p, square, a, TWO_128, b)
  {
    var q := a / b;
    assert q * b == a && q > 0.0;
    assert p > 0.0;
    Rearranged(root, TWO_128, q, b, p, square, a);
    var inverse := 1.0 / p;
    assert inverse * p == 1.0;
    Inverted(inverse, p, TWO_128, b, square, a);
  }

  lemma Rearranged(root: real, unit: real, q: real, b: real, p: real, square: real, a: real)
    requires p == root * q && root * unit == square && q * b == a
    ensures Values(p, unit, b, square, a)
  {
    assert p * unit == square * q;
    assert square * q * b == square * (q * b);
  }

  lemma Inverted(inverse: real, p: real, unit: real, b: real, square: real, a: real)
    requires inverse * p == 1.0 && Values(p, unit, b, square, a)
    ensures Values(inverse, square, a, unit, b)
  {
    assert square * a == p * (unit * b);
    assert inverse * square * a == inverse * (square * a);
    assert inverse * (p * (unit * b)) == inverse * p * (unit * b);
  }

  /** A spread over a positive price, as equations. */
  lemma SpreadMeaning(buyDex: Dex, buyPrice: real, sellDex: Dex, sellPrice: real)
    requires buyPrice > 0.0
    ensures var gross, net := GrossSpreadBps(buyPrice, sellPrice), NetSpreadBps(buyDex, buyPrice, sellDex, sellPrice);
            && gross.Finite? && gross.bps * buyPrice == (sellPrice - buyPrice) * 10_000.0
            && net.Finite? && net.bps == gross.bps - buyDex.FeeBps() - sellDex.FeeBps()
  {
    var ratio := (sellPrice - buyPrice) / buyPrice;
    assert ratio * buyPrice == sellPrice - buyPrice;
    assert ratio * 10_000.0 * buyPrice == ratio * buyPrice * 10_000.0;
  }

  /** Both decoders quote the same price for the same reserves of a 6-decimals token. */
  lemma CurveAndVaultPricesAgree(state: PumpFunState)
    ensures PumpFunPriceInSol(state)
         == RaydiumPriceFromVaults(state.virtualTokenReserves, state.virtualSolReserves, PUMPFUN_DECIMALS, SOL_DECIMALS)
  {
    assert Pow10(3) == 1_000.0;
    assert Pow10(6) == 1_000_000.0;
    assert Pow10(9) == 1_000_000_000.0;
  }
}
