/** Shared types of crates/arb-types/src/lib.rs. */
module Types {
  import opened MachineInts
  import opened Wrappers

  const WSOL_MINT: string := "So11111111111111111111111111111111111111112"
  const USDC_MINT: string := "EPjFWdd5AufqSSqeM2qN1xzybapC8G4wEGGkZwyTDt1v"
  const USDT_MINT: string := "Es9vMFrzaCERmJfrF4H2FYD4KCoNkY11McCe8BenwNYB"

  datatype Dex = Raydium | RaydiumClmm | Orca | Jupiter | Meteora | PumpFun | PumpSwap | UnknownDex
  {
    function AsString(): string {
      match this
      case Raydium => "raydium"
      case RaydiumClmm => "raydium_clmm"
      case Orca => "orca"
      case Jupiter => "jupiter"
      case Meteora => "meteora"
      case PumpFun => "pumpfun"
      case PumpSwap => "pumpswap"
      case UnknownDex => "unknown"
    }

    function FeeBps(): real {
      match this
      case Meteora => 30.0
      case PumpFun => 100.0
      case _ => 25.0
    }
  }

  datatype SwapDirection = Buy | Sell

  datatype Error =
    | MissingVaults
    | RpcFailed
    | AccountMissing
    | DecodeFailed
    | CurveComplete
    | UnsupportedDex
    | TooFewDexes
    | NoRoute
    | NoPoolOnTriggerDex
    | BuyTriggerSkipped
    | ZeroFirstLeg
    | SanityFailed
    | DiscoveryFailed

  datatype KnownPool = KnownPool(
    poolAddress: string,
    dex: Dex,
    baseMint: string,
    quoteMint: string,
    vaultAddresses: Option<(string, string)>)

  datatype LocalQuote = LocalQuote(
    poolAddress: string,
    dex: Dex,
    inputMint: string,
    inputAmount: U64,
    outputAmount: U64,
    feeAmount: U64,
    priceImpactBps: real,
    reserves: (U64, U64))

  datatype CrossVenueResult = CrossVenueResult(
    tokenMint: string,
    tokenSymbol: string,
    buyPool: KnownPool,
    sellPool: KnownPool,
    inputLamports: U64,
    tokensReceived: U64,
    outputLamports: U64,
    grossProfitLamports: int,
    netProfitLamports: int,
    profitBps: real,
    profitable: bool,
    fixedCostLamports: int,
    jitoTipLamports: U64,
    slippageLamports: U64)

  datatype PriceSource = HttpPoll | WebSocket | ForgeStream

  /** `timestamp` counts milliseconds. */
  datatype PriceQuote = PriceQuote(
    dex: Dex,
    baseMint: string,
    quoteMint: string,
    priceUsd: real,
    liquidityUsd: real,
    poolAddress: Option<string>,
    source: PriceSource,
    timestamp: int)
}
