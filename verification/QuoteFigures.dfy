/**
  Every figure of a quote, for each kind of pool and each input mint, in terms of the
  accounts on the chain: the reserves a quote runs on and in which direction, the
  output as the largest payout they allow, and the fee and price impact as equations.
 */
module QuoteFigures {
  import opened MachineInts
  import opened Wrappers
  import opened Types
  import opened Amm
  import opened AmmMachine
  import opened Quoter
  import opened SamePool
  import CL = ConcentratedLiquidity

  // ----- figures -----

  predicate ProductFits(y: U64, a: U64, feeBps: nat)
    requires feeBps <= BPS
  {
    a * (BPS - feeBps) * y < U128_LIMIT
  }

  /** `out` is the largest payout for `a`; on a product that wraps around it is at most that. */
  predicate SwapPays(x: U64, y: U64, a: U64, feeBps: nat, out: int)
    requires feeBps <= BPS
  {
    if x == 0 || y == 0 || a == 0 then out == 0
    else
      && 0 <= out
      && KeepsAdjustedProduct(x, y, a, feeBps, out)
      && (ProductFits(y, a, feeBps) ==> !KeepsAdjustedProduct(x, y, a, feeBps, out + 1))
  }

  lemma MachineAgainstFormula(x: U64, y: U64, a: U64, feeBps: nat)
    requires feeBps <= BPS
    ensures ConstantProductSwap(x, y, a, feeBps) <= ExactSwap(x, y, a, feeBps)
    ensures ProductFits(y, a, feeBps) ==> ConstantProductSwap(x, y, a, feeBps) == ExactSwap(x, y, a, feeBps)
  {
    MachineSwapIsExactIff(x, y, a, feeBps);
  }

  lemma PayoutOf(x: U64, y: U64, a: U64, feeBps: nat, out: U64)
    requires feeBps <= BPS && 0 < x && 0 < y && out <= ExactSwap(x, y, a, feeBps)
    ensures KeepsAdjustedProduct(x, y, a, feeBps, out)
    ensures out == ExactSwap(x, y, a, feeBps) ==> !KeepsAdjustedProduct(x, y, a, feeBps, out + 1)
  {
    SwapIsLargestPayout(x, y, a, feeBps, out);
    SwapIsLargestPayout(x, y, a, feeBps, out + 1);
  }

  lemma MachineSwapPays(x: U64, y: U64, a: U64, feeBps: nat)
    requires feeBps <= BPS
    ensures SwapPays(x, y, a, feeBps, ConstantProductSwap(x, y, a, feeBps))
  {
    if x != 0 && y != 0 && a != 0 {
      MachineAgainstFormula(x, y, a, feeBps);
      PayoutOf(x, y, a, feeBps, ConstantProductSwap(x, y, a, feeBps));
    }
  }

  /** The whole hundredth of an amount. */
  predicate Hundredth(fee: int, amount: int) {
    100 * fee <= amount < 100 * fee + 100
  }

  predicate ImpactIs(bps: real, amount: U64, reserve: U64) {
    if reserve == 0 then bps == 0.0 else bps * reserve as real == amount as real * 10_000.0
  }

  lemma ImpactOf(amount: U64, reserve: U64)
    ensures ImpactIs(ImpactOrZero(amount, reserve), amount, reserve)
  {
    if 0 < reserve {
      var ratio := amount as real / reserve as real;
      assert ratio * reserve as real == amount as real;
      assert ratio * 10_000.0 * reserve as real == ratio * reserve as real * 10_000.0;
    }
  }

  /** A quote names its pool and its input. */
  predicate Names(q: LocalQuote, pool: KnownPool, mint: string, amount: U64) {
    q.poolAddress == pool.poolAddress && q.dex == pool.dex && q.inputMint == mint && q.inputAmount == amount
  }

  // ----- vault pools -----

  /** SOL, or the pool's quote mint, goes into the second vault; anything else into the first. */
  predicate VaultFigures(q: LocalQuote, pool: KnownPool, mint: string, amount: U64, base: U64, quote: U64) {
    && Names(q, pool, mint, amount)
    && q.reserves == (if mint == WSOL_MINT || mint == pool.quoteMint then (quote, base) else (base, quote))
    && SwapPays(q.reserves.0, q.reserves.1, amount, 25, q.outputAmount)
    && ImpactIs(q.priceImpactBps, amount, q.reserves.0)
    && (25 * amount < U64_LIMIT ==> 10_000 * q.feeAmount <= 25 * amount < 10_000 * (q.feeAmount + 1))
  }

  lemma VaultQuoteIs(pool: KnownPool, mint: string, amount: U64, rpc: Rpc)
    requires VaultPool(pool.dex)
    ensures match QuoteSwap(pool, mint, amount, rpc)
            case Failure(_) => Vaults(pool, rpc).None?
            case Success(q) =>
              && Vaults(pool, rpc).Some?
              && var (base, quote) := Vaults(pool, rpc).value;
                 VaultFigures(q, pool, mint, amount, base, quote)
  {
    VaultQuote(pool, mint, amount, rpc);
    if Vaults(pool, rpc).Some? {
      var (base, quote) := Vaults(pool, rpc).value;
      var (x, y) := if mint == WSOL_MINT || mint == pool.quoteMint then (quote, base) else (base, quote);
      MachineSwapPays(x, y, amount, 25);
      ImpactOf(amount, x);
      VaultFeeIsExactIff(amount);
    }
  }

  // ----- bonding curves -----

  function OpenCurve(pool: KnownPool, rpc: Rpc): Option<PumpFunState> {
    if rpc.Up? && pool.poolAddress in rpc.accounts && rpc.accounts[pool.poolAddress].pumpFun.Some?
       && !rpc.accounts[pool.poolAddress].pumpFun.value.complete
    then rpc.accounts[pool.poolAddress].pumpFun
    else None
  }

  /** A buy pays its hundredth first; a sale pays one of what the curve gives, and reports one of what is left. */
  ghost predicate CurveFigures(q: LocalQuote, pool: KnownPool, mint: string, amount: U64, sol: U64, token: U64) {
    && Names(q, pool, mint, amount)
    && q.reserves == (if mint == WSOL_MINT then (sol, token) else (token, sol))
    && ImpactIs(q.priceImpactBps, amount, q.reserves.0)
    && if mint == WSOL_MINT
       then Hundredth(q.feeAmount, amount) && SwapPays(sol, token, amount - q.feeAmount, 0, q.outputAmount)
       else
         && Hundredth(q.feeAmount, q.outputAmount)
         && exists gross: U64 | SwapPays(token, sol, amount, 0, gross) :: Hundredth(gross - q.outputAmount, gross)
  }

  lemma CurveSaleIs(state: PumpFunState, amount: U64) returns (gross: U64)
    ensures SwapPays(state.virtualTokenReserves, state.virtualSolReserves, amount, 0, gross)
    ensures Hundredth(gross - PumpFunSellOutput(state, amount), gross)
  {
    gross := ConstantProductSwap(state.virtualTokenReserves, state.virtualSolReserves, amount, 0);
    MachineSwapPays(state.virtualTokenReserves, state.virtualSolReserves, amount, 0);
  }

  lemma CurveBuyIs(state: PumpFunState, amount: U64)
    ensures Hundredth(amount / 100, amount)
    ensures SwapPays(state.virtualSolReserves, state.virtualTokenReserves, amount - amount / 100, 0,
                     PumpFunBuyOutput(state, amount))
  {
    MachineSwapPays(state.virtualSolReserves, state.virtualTokenReserves, PumpFunNet(amount), 0);
  }

  lemma CurveQuoteIs(pool: KnownPool, mint: string, amount: U64, rpc: Rpc)
    requires pool.dex.PumpFun?
    ensures match QuoteSwap(pool, mint, amount, rpc)
            case Failure(_) => OpenCurve(pool, rpc).None?
            case Success(q) =>
              && OpenCurve(pool, rpc).Some?
              && var state := OpenCurve(pool, rpc).value;
                 CurveFigures(q, pool, mint, amount, state.virtualSolReserves, state.virtualTokenReserves)
  {
    assert pool.poolAddress in [pool.poolAddress];
    if OpenCurve(pool, rpc).Some? {
      var state := OpenCurve(pool, rpc).value;
      if mint == WSOL_MINT {
        CurveBuyIs(state, amount);
        ImpactOf(amount, state.virtualSolReserves);
      } else {
        var gross := CurveSaleIs(state, amount);
        ImpactOf(amount, state.virtualTokenReserves);
      }
    }
  }

  // ----- concentrated pools -----

  /** The root price, the liquidity, the fee in hundredths of a basis point and the first mint. */
  function TickState(pool: KnownPool, rpc: Rpc): Option<(U128, U128, U16, string)> {
    if rpc.Down? || pool.poolAddress !in rpc.accounts then None
    else
      var account := rpc.accounts[pool.poolAddress];
      match pool.dex
      case RaydiumClmm =>
        if account.clmm.None? then None
        else Some((account.clmm.value.sqrtPriceX64, account.clmm.value.liquidity, 2_500, account.clmm.value.mint0))
      case Orca =>
        if account.sqrtPrice.None? || account.whirlpool.None? then None
        else Some((account.sqrtPrice.value, account.whirlpool.value.liquidity,
                   account.whirlpool.value.feeRate, account.whirlpool.value.mintA))
      case _ => None
  }

  /** `kept` is what a millionth fee and the 10 bps held back leave. */
  predicate KeptAfter(kept: real, amount: U64, rate: U16) {
    kept == amount as real * (1.0 - rate as real / 1_000_000.0) * 0.999
  }

  predicate FeeIs(fee: U64, amount: U64, rate: U16) {
    NearestU64(fee, amount as real * (rate as real / 1_000_000.0))
  }

  /** The output is what the kept input is worth at the squared root price, in the direction of the input mint. */
  ghost predicate TickFigures(
    q: LocalQuote, pool: KnownPool, mint: string, amount: U64, liquidity: U128, price: real, rate: U16, first: string)
  {
    && Names(q, pool, mint, amount)
    && q.reserves == (0, 0) && q.priceImpactBps == 0.0
    && FeeIs(q.feeAmount, amount, rate)
    && if price <= 0.0 || liquidity == 0 || amount == 0 then q.outputAmount == 0
       else exists kept | KeptAfter(kept, amount, rate) :: CL.Pays(q.outputAmount, kept, price, mint == first)
  }

  lemma RateInBps(amount: real, rate: real)
    ensures amount * (rate / 100.0) / 10_000.0 == amount * (rate / 1_000_000.0)
    ensures rate / 100.0 / 10_000.0 == rate / 1_000_000.0
  {
  }

  lemma TickFee(amount: U64, rate: U16)
    ensures FeeIs(ProportionalFee(amount, rate as real / 100.0), amount, rate)
  {
    RateInBps(amount as real, rate as real);
    CastIsNearest(amount as real * (rate as real / 1_000_000.0));
  }

  lemma TickKept(amount: U64, rate: U16)
    ensures KeptAfter(CL.Kept(amount as real, rate as real / 100.0), amount, rate)
  {
    RateInBps(amount as real, rate as real);
  }

  lemma SquareIsPositiveIff(sqrtPrice: U128, root: real)
    requires root * 18446744073709551616.0 == sqrtPrice as real
    ensures root * root > 0.0 <==> 0 < sqrtPrice
  {
    if 0 < sqrtPrice {
      assert root > 0.0;
    } else {
      assert root == 0.0;
    }
  }

  lemma TickQuoteIs(pool: KnownPool, mint: string, amount: U64, rpc: Rpc, root: real, price: real)
    requires Concentrated(pool.dex)
    requires TickState(pool, rpc).Some? ==>
               root * 18446744073709551616.0 == TickState(pool, rpc).value.0 as real && price == root * root
    ensures match QuoteSwap(pool, mint, amount, rpc)
            case Failure(_) => TickState(pool, rpc).None?
            case Success(q) =>
              && TickState(pool, rpc).Some?
              && var (_, liquidity, rate, first) := TickState(pool, rpc).value;
                 TickFigures(q, pool, mint, amount, liquidity, price, rate, first)
  {
    assert pool.poolAddress in [pool.poolAddress];
    if TickState(pool, rpc).Some? {
      var (sqrtPrice, liquidity, rate, first) := TickState(pool, rpc).value;
      var feeBps := rate as real / 100.0;
      TickFee(amount, rate);
      TickKept(amount, rate);
      SquareIsPositiveIff(sqrtPrice, root);
      CL.OutputIs(sqrtPrice, liquidity, amount, feeBps, mint == first, root, price,
                  CL.WhirlpoolSwapOutput(sqrtPrice, liquidity, amount, feeBps, mint == first));
    }
  }

  // ----- batched quotes -----

  /** Price impact as the batched code prints it: an empty reserve counts as one unit. */
  predicate BatchedImpactIs(bps: real, amount: U64, reserve: U64) {
    bps * (if reserve == 0 then 1.0 else reserve as real) == amount as real * 10_000.0
  }

  lemma ImpactOfOne(amount: U64, reserve: U64)
    ensures BatchedImpactIs(ImpactOfAtLeastOne(amount, reserve), amount, reserve)
  {
    if 0 < reserve {
      ImpactOf(amount, reserve);
    } else {
      assert amount as real / 1.0 == amount as real;
    }
  }

  /**
    A quote from cached accounts has the figures of the individual one, but for its
    price impact on vault pools and curves, which it counts against at least one unit.
   */
  lemma BatchedQuoteIs(pool: KnownPool, mint: string, amount: U64, cache: map<string, Account>)
    ensures var batched, single := QuoteFromCache(pool, mint, amount, cache), QuoteSwap(pool, mint, amount, Up(cache));
            && (batched.Success? <==> single.Success?)
            && (single.Success? ==>
                  && batched.value.(priceImpactBps := single.value.priceImpactBps) == single.value
                  && if Concentrated(pool.dex) then batched == single
                     else BatchedImpactIs(batched.value.priceImpactBps, amount, batched.value.reserves.0))
  {
    CacheAgrees(pool, mint, amount, cache, cache);
    var batched := QuoteFromCache(pool, mint, amount, cache);
    if batched.Success? {
      ImpactOfOne(amount, batched.value.reserves.0);
    }
  }

  // ----- failures -----

  /** A fetch fails exactly when something is asked of an endpoint that is down; else it finds what the chain has. */
  lemma FetchIs(rpc: Rpc, addresses: seq<string>)
    ensures match FetchAccounts(rpc, addresses)
            case Failure(error) => error == RpcFailed && addresses != [] && rpc.Down?
            case Success(found) =>
              && (addresses == [] || rpc.Up?)
              && found.Keys == (set a | a in addresses && rpc.Up? && a in rpc.accounts)
              && forall a | a in found :: rpc.Up? && found[a] == rpc.accounts[a]
  {
  }

  /** Why a pool cannot be quoted, in the order the checks are made. */
  function WhyNot(pool: KnownPool, rpc: Rpc): Option<Error> {
    match pool.dex
    case Raydium | PumpSwap =>
      if pool.vaultAddresses.None? then Some(MissingVaults)
      else if rpc.Down? then Some(RpcFailed)
      else if {pool.vaultAddresses.value.0, pool.vaultAddresses.value.1} <= rpc.accounts.Keys then
        if Vaults(pool, rpc).Some? then None else Some(DecodeFailed)
      else Some(AccountMissing)
    case PumpFun | RaydiumClmm | Orca =>
      if rpc.Down? then Some(RpcFailed)
      else if pool.poolAddress !in rpc.accounts then Some(AccountMissing)
      else if OpenCurve(pool, rpc).Some? && pool.dex.PumpFun? then None
      else if TickState(pool, rpc).Some? then None
      else if pool.dex.PumpFun? && rpc.accounts[pool.poolAddress].pumpFun.Some? then Some(CurveComplete)
      else Some(DecodeFailed)
    case _ => Some(UnsupportedDex)
  }

  lemma FailureIs(pool: KnownPool, mint: string, amount: U64, rpc: Rpc)
    ensures match WhyNot(pool, rpc)
            case None => QuoteSwap(pool, mint, amount, rpc).Success?
            case Some(error) => QuoteSwap(pool, mint, amount, rpc) == Failure(error)
  {
    if pool.vaultAddresses.Some? {
      var (a, b) := pool.vaultAddresses.value;
      assert a in [a, b] && b in [a, b];
    }
    assert pool.poolAddress in [pool.poolAddress];
  }
}
