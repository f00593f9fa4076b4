/** Buying and selling back on one pool, through the quoter, on unchanged accounts. */
module SamePool {
  import opened MachineInts
  import opened Wrappers
  import opened Types
  import opened Amm
  import opened AmmMachine
  import opened Quoter
  import CL = ConcentratedLiquidity
  import Trips = RoundTrips

  predicate VaultPool(dex: Dex) {
    dex.Raydium? || dex.PumpSwap?
  }

  predicate Concentrated(dex: Dex) {
    dex.RaydiumClmm? || dex.Orca?
  }

  /** The first mint of a concentrated pool, where its account can be read. */
  function FirstMint(pool: KnownPool, rpc: Rpc): Option<string> {
    if rpc.Up? && pool.poolAddress in rpc.accounts then
      var account := rpc.accounts[pool.poolAddress];
      match pool.dex
      case RaydiumClmm => if account.clmm.Some? then Some(account.clmm.value.mint0) else None
      case Orca => if account.whirlpool.Some? then Some(account.whirlpool.value.mintA) else None
      case _ => None
    else None
  }

  /**
    The two legs of a round trip run in opposite directions: on vault pools the
    token is not the quote side (or there is one vault only), on concentrated pools
    the first mint is one of the two traded.
   */
  predicate RunsBothWays(pool: KnownPool, token: string, first: Option<string>) {
    && (VaultPool(pool.dex) ==>
          || token != pool.quoteMint
          || pool.vaultAddresses.None?
          || pool.vaultAddresses.value.0 == pool.vaultAddresses.value.1)
    && (Concentrated(pool.dex) && first.Some? ==> first.value in {WSOL_MINT, token})
  }

  predicate Oriented(pool: KnownPool, token: string, rpc: Rpc) {
    RunsBothWays(pool, token, FirstMint(pool, rpc))
  }

  /** Lamports that come back for `amount` lamports; 0 when a leg cannot be quoted. */
  function ReturnOf(pool: KnownPool, token: string, amount: U64, rpc: Rpc): U64 {
    match QuoteSwap(pool, WSOL_MINT, amount, rpc)
    case Failure(_) => 0
    case Success(leg1) =>
      match QuoteSwap(pool, token, leg1.outputAmount, rpc)
      case Failure(_) => 0
      case Success(leg2) => leg2.outputAmount
  }

  /** The two reserves of a vault pool, base side first. */
  function Vaults(pool: KnownPool, rpc: Rpc): Option<(U64, U64)> {
    if pool.vaultAddresses.None? || rpc.Down? then None
    else
      var (base, quote) := pool.vaultAddresses.value;
      if base !in rpc.accounts || quote !in rpc.accounts then None
      else
        match (rpc.accounts[base].splBalance, rpc.accounts[quote].splBalance)
        case (Some(b), Some(q)) => Some((b, q))
        case _ => None
  }

  /** What a vault pool quotes for an input mint. */
  lemma VaultQuote(pool: KnownPool, mint: string, amount: U64, rpc: Rpc)
    requires pool.dex.Raydium? || pool.dex.PumpSwap?
    ensures match QuoteSwap(pool, mint, amount, rpc)
            case Failure(_) => Vaults(pool, rpc).None?
            case Success(q) =>
              && Vaults(pool, rpc).Some?
              && var (base, quote) := Vaults(pool, rpc).value;
                 q.outputAmount == if mint == WSOL_MINT || mint == pool.quoteMint
                                   then ConstantProductSwap(quote, base, amount, CP_FEE_BPS)
                                   else ConstantProductSwap(base, quote, amount, CP_FEE_BPS)
  {
    if pool.vaultAddresses.Some? {
      var (a, b) := pool.vaultAddresses.value;
      assert a in [a, b] && b in [a, b];
    }
  }

  lemma VaultReturn(pool: KnownPool, token: string, amount: U64, rpc: Rpc)
    requires (pool.dex.Raydium? || pool.dex.PumpSwap?) && token != WSOL_MINT
    ensures ReturnOf(pool, token, amount, rpc) ==
            match Vaults(pool, rpc)
            case None => 0
            case Some((base, quote)) =>
              var mid := ConstantProductSwap(quote, base, amount, CP_FEE_BPS);
              if token == pool.quoteMint then ConstantProductSwap(quote, base, mid, CP_FEE_BPS)
              else ConstantProductSwap(base, quote, mid, CP_FEE_BPS)
  {
    VaultQuote(pool, WSOL_MINT, amount, rpc);
    match QuoteSwap(pool, WSOL_MINT, amount, rpc)
    case Failure(_) =>
    case Success(leg1) => VaultQuote(pool, token, leg1.outputAmount, rpc);
  }

  /** On every kind of pool, an oriented round trip returns at most what went in. */
  lemma OrientedRoundTripNeverGains(pool: KnownPool, token: string, amount: U64, rpc: Rpc)
    requires token != WSOL_MINT && Oriented(pool, token, rpc)
    ensures ReturnOf(pool, token, amount, rpc) <= amount
  {
    match pool.dex
    case Raydium | PumpSwap =>
      if token != pool.quoteMint {
        VaultRoundTrip(pool, token, amount, rpc);
      } else {
        OneVaultRoundTrip(pool, token, amount, rpc);
      }
    case PumpFun => CurveRoundTrip(pool, token, amount, rpc);
    case RaydiumClmm => ClmmRoundTrip(pool, token, amount, rpc);
    case Orca => OrcaRoundTrip(pool, token, amount, rpc);
    case _ =>
  }

  lemma OneVaultRoundTrip(pool: KnownPool, token: string, amount: U64, rpc: Rpc)
    requires (pool.dex.Raydium? || pool.dex.PumpSwap?) && token != WSOL_MINT
    requires pool.vaultAddresses.Some? ==> pool.vaultAddresses.value.0 == pool.vaultAddresses.value.1
    ensures ReturnOf(pool, token, amount, rpc) <= amount
  {
    VaultReturn(pool, token, amount, rpc);
    if Vaults(pool, rpc).Some? {
      Trips.ConstantProductNeverGains(Vaults(pool, rpc).value.0, Vaults(pool, rpc).value.0, amount, CP_FEE_BPS);
    }
  }

  lemma VaultRoundTrip(pool: KnownPool, token: string, amount: U64, rpc: Rpc)
    requires (pool.dex.Raydium? || pool.dex.PumpSwap?) && token != WSOL_MINT && token != pool.quoteMint
    ensures ReturnOf(pool, token, amount, rpc) <= amount
  {
    VaultReturn(pool, token, amount, rpc);
    if Vaults(pool, rpc).Some? {
      var (base, quote) := Vaults(pool, rpc).value;
      Trips.ConstantProductNeverGains(quote, base, amount, CP_FEE_BPS);
    }
  }

  lemma CurveRoundTrip(pool: KnownPool, token: string, amount: U64, rpc: Rpc)
    requires pool.dex.PumpFun? && token != WSOL_MINT
    ensures ReturnOf(pool, token, amount, rpc) <= amount
  {
    var address := pool.poolAddress;
    assert address in [address];
    if rpc.Up? && address in rpc.accounts && rpc.accounts[address].pumpFun.Some? {
      Trips.PumpFunNeverGains(rpc.accounts[address].pumpFun.value, amount);
    }
  }

  lemma ClmmRoundTrip(pool: KnownPool, token: string, amount: U64, rpc: Rpc)
    requires pool.dex.RaydiumClmm? && token != WSOL_MINT && Oriented(pool, token, rpc)
    ensures ReturnOf(pool, token, amount, rpc) <= amount
  {
    var address := pool.poolAddress;
    assert address in [address];
    if rpc.Up? && address in rpc.accounts && rpc.accounts[address].clmm.Some? {
      var state := rpc.accounts[address].clmm.value;
      CL.RoundTripNeverGains(state.sqrtPriceX64, state.liquidity, amount, 25.0, state.mint0 == WSOL_MINT);
    }
  }

  lemma OrcaRoundTrip(pool: KnownPool, token: string, amount: U64, rpc: Rpc)
    requires pool.dex.Orca? && token != WSOL_MINT && Oriented(pool, token, rpc)
    ensures ReturnOf(pool, token, amount, rpc) <= amount
  {
    var address := pool.poolAddress;
    assert address in [address];
    if && rpc.Up? && address in rpc.accounts
       && rpc.accounts[address].whirlpool.Some? && rpc.accounts[address].sqrtPrice.Some? {
      var state := rpc.accounts[address].whirlpool.value;
      var feeBps := WhirlpoolFeeBps(state.feeRate);
      assert 0.0 <= feeBps <= 656.0;
      CL.RoundTripNeverGains(
        rpc.accounts[address].sqrtPrice.value, state.liquidity, amount, feeBps, state.mintA == WSOL_MINT);
    }
  }

  // ----- when both legs run in the same direction -----

  /** No chain state with this first mint lets any amount come back larger. */
  ghost predicate NeverGains(pool: KnownPool, token: string, first: Option<string>) {
    forall rpc: Rpc, amount: U64 | FirstMint(pool, rpc) == first :: ReturnOf(pool, token, amount, rpc) <= amount
  }

  function VaultAccount(balance: U64): Account {
    Account(Some(balance), None, None, None, None)
  }

  lemma TenForOneTwice()
    ensures ConstantProductSwap(1_000_000, 10_000_000, 1_000, CP_FEE_BPS) == 9_965
    ensures ConstantProductSwap(1_000_000, 10_000_000, 9_965, CP_FEE_BPS) == 98_422
  {
    MachineSwapIsExactIff(1_000_000, 10_000_000, 1_000, CP_FEE_BPS);
    MachineSwapIsExactIff(1_000_000, 10_000_000, 9_965, CP_FEE_BPS);
    assert ExactSwap(1_000_000, 10_000_000, 1_000, CP_FEE_BPS) == 99_750_000_000_000 / 10_009_975_000;
    assert ExactSwap(1_000_000, 10_000_000, 9_965, CP_FEE_BPS) == 994_008_750_000_000 / 10_099_400_875;
  }

  /** Ten tokens per lamport and both legs sold for tokens: 1000 lamports "return" 98422. */
  lemma MisorientedVaults(pool: KnownPool, token: string) returns (rpc: Rpc)
    requires VaultPool(pool.dex) && token != WSOL_MINT && token == pool.quoteMint
    requires pool.vaultAddresses.Some? && pool.vaultAddresses.value.0 != pool.vaultAddresses.value.1
    ensures FirstMint(pool, rpc) == None && ReturnOf(pool, token, 1_000, rpc) == 98_422
  {
    var (base, quote) := pool.vaultAddresses.value;
    rpc := Up(map[base := VaultAccount(10_000_000), quote := VaultAccount(1_000_000)]);
    assert Vaults(pool, rpc) == Some((10_000_000, 1_000_000));
    VaultReturn(pool, token, 1_000, rpc);
    TenForOneTwice();
  }

  const THREE_QUARTERS: U128 := 13_835_058_055_282_163_712

  /** A concentrated pool at price 9/16 with a 25 bps fee, as either DEX stores it. */
  function ThirdMintAccount(first: string): Account {
    Account(None, Some(ClmmState(first, 1, THREE_QUARTERS)), Some(THREE_QUARTERS),
            Some(WhirlpoolState(first, 1, 2_500)), None)
  }

  function ThirdMintPool(pool: KnownPool, first: string): Rpc {
    Up(map[pool.poolAddress := ThirdMintAccount(first)])
  }

  lemma NineSixteenths()
    ensures CL.PriceOf(THREE_QUARTERS) == 9.0 / 16.0
  {
    assert THREE_QUARTERS as real / CL.TWO_64 == 0.75;
  }

  lemma NineSixteenthsTwice()
    ensures CL.WhirlpoolSwapOutput(THREE_QUARTERS, 1, 100_000_000, 25.0, false) == 177_156_000
    ensures CL.WhirlpoolSwapOutput(THREE_QUARTERS, 1, 177_156_000, 25.0, false) == 313_842_483
  {
    NineSixteenths();
    assert CL.NetOfFee(100_000_000, 25.0) == 99_750_000.0;
    FloorIs(177_156_000.0, 177_156_000);
    assert CL.NetOfFee(177_156_000, 25.0) == 176_713_110.0;
    FloorIs(313_842_483.36, 313_842_483);
  }

  /** Neither leg starts from the first mint, so both divide by the price: 0.1 SOL "returns" 0.31. */
  lemma MisorientedMints(pool: KnownPool, token: string, first: string)
    requires Concentrated(pool.dex) && first !in {WSOL_MINT, token}
    ensures FirstMint(pool, ThirdMintPool(pool, first)) == Some(first)
    ensures QuoteSwap(pool, WSOL_MINT, 100_000_000, ThirdMintPool(pool, first)).Success?
    ensures QuoteSwap(pool, WSOL_MINT, 100_000_000, ThirdMintPool(pool, first)).value.outputAmount == 177_156_000
    ensures ReturnOf(pool, token, 100_000_000, ThirdMintPool(pool, first)) == 313_842_483
  {
    assert pool.poolAddress in [pool.poolAddress];
    assert WhirlpoolFeeBps(2_500) == 25.0;
    NineSixteenthsTwice();
  }

  /**
    A pool's round trip never gains, for all its chain states with a given first mint
    and all amounts, exactly when its legs run both ways.
   */
  lemma NeverGainsIff(pool: KnownPool, token: string, first: Option<string>)
    requires token != WSOL_MINT && (first.Some? ==> Concentrated(pool.dex))
    ensures NeverGains(pool, token, first) <==> RunsBothWays(pool, token, first)
  {
    if RunsBothWays(pool, token, first) {
      forall rpc: Rpc, amount: U64 | FirstMint(pool, rpc) == first
        ensures ReturnOf(pool, token, amount, rpc) <= amount
      {
        OrientedRoundTripNeverGains(pool, token, amount, rpc);
      }
    } else if VaultPool(pool.dex) {
      var rpc := MisorientedVaults(pool, token);
      assert ReturnOf(pool, token, 1_000, rpc) > 1_000;
    } else {
      MisorientedMints(pool, token, first.value);
      assert ReturnOf(pool, token, 100_000_000, ThirdMintPool(pool, first.value)) > 100_000_000;
    }
  }

  /** The reported fee is 25 bps of the input exactly while 25 times the input fits in a u64. */
  lemma VaultFeeIsExactIff(amount: U64)
    ensures VaultFee(amount) == amount * 25 / 10_000 <==> amount * 25 < U64_LIMIT
  {
    var wrapped := WrapU64(amount * 25);
    if U64_LIMIT <= amount * 25 {
      assert wrapped <= amount * 25 - U64_LIMIT;
    }
  }
}
