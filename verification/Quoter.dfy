/**
  crates/arb-sim/src/amm_quoter.rs against one snapshot of the chain.

  An account is the tuple of what each decoder makes of its bytes; `None` is a
  decoder that rejects them.
 */
module Quoter {
  import opened MachineInts
  import opened Wrappers
  import opened Types
  import opened Amm
  import CL = ConcentratedLiquidity

  type U16 = n: int | 0 <= n < 0x1_0000

  datatype ClmmState = ClmmState(mint0: string, liquidity: U128, sqrtPriceX64: U128)

  datatype WhirlpoolState = WhirlpoolState(mintA: string, liquidity: U128, feeRate: U16)

  datatype Account = Account(
    splBalance: Option<U64>,
    clmm: Option<ClmmState>,
    sqrtPrice: Option<U128>,
    whirlpool: Option<WhirlpoolState>,
    pumpFun: Option<PumpFunState>)

  datatype Rpc = Down | Up(accounts: map<string, Account>)

  type Quote = Result<LocalQuote, Error>

  function FetchAccounts(rpc: Rpc, addresses: seq<string>): Result<map<string, Account>, Error> {
    if addresses == [] then Success(map[])
    else
      match rpc
      case Down => Failure(RpcFailed)
      case Up(accounts) => Success(map a | a in addresses && a in accounts :: accounts[a])
  }

  // ----- parts of a quote -----

  /** 25 bps of the input; the product is taken in u64. */
  function VaultFee(amountIn: U64): U64 {
    WrapU64(amountIn * 25) / 10_000
  }

  function ProportionalFee(amountIn: U64, feeBps: real): U64 {
    SaturatingU64(amountIn as real * feeBps / 10_000.0)
  }

  function ImpactOrZero(amountIn: U64, reserveIn: U64): real {
    if 0 < reserveIn then amountIn as real / reserveIn as real * 10_000.0 else 0.0
  }

  function ImpactOfAtLeastOne(amountIn: U64, reserveIn: U64): real {
    amountIn as real / (if reserveIn < 1 then 1 else reserveIn) as real * 10_000.0
  }

  /** feeRate counts hundredths of a basis point. */
  function WhirlpoolFeeBps(feeRate: U16): real {
    feeRate as real / 100.0
  }

  // ----- one pool, fetching its own accounts -----

  function QuoteSwap(pool: KnownPool, inputMint: string, amountIn: U64, rpc: Rpc): Quote {
    match pool.dex
    case Raydium => QuoteRaydium(pool, inputMint, amountIn, rpc)
    case PumpSwap => QuotePumpSwap(pool, inputMint, amountIn, rpc)
    case PumpFun => QuotePumpFun(pool, inputMint, amountIn, rpc)
    case RaydiumClmm => QuoteRaydiumClmm(pool, inputMint, amountIn, rpc)
    case Orca => QuoteOrca(pool, inputMint, amountIn, rpc)
    case _ => Failure(UnsupportedDex)
  }

  function QuoteRaydium(pool: KnownPool, inputMint: string, amountIn: U64, rpc: Rpc): Quote {
    if pool.vaultAddresses.None? then Failure(MissingVaults)
    else
      var (coinVault, pcVault) := pool.vaultAddresses.value;
      match FetchAccounts(rpc, [coinVault, pcVault])
      case Failure(error) => Failure(error)
      case Success(accounts) =>
        if coinVault !in accounts || pcVault !in accounts then Failure(AccountMissing)
        else
          match (accounts[coinVault].splBalance, accounts[pcVault].splBalance)
          case (Some(coin), Some(pc)) =>
            var (reserveIn, reserveOut) :=
              if inputMint == pool.quoteMint || inputMint == WSOL_MINT then (pc, coin) else (coin, pc);
            Success(LocalQuote(
              pool.poolAddress, Raydium, inputMint, amountIn,
              RaydiumSwapOutput(reserveIn, reserveOut, amountIn),
              VaultFee(amountIn), ImpactOrZero(amountIn, reserveIn), (reserveIn, reserveOut)))
          case _ => Failure(DecodeFailed)
  }

  function QuotePumpSwap(pool: KnownPool, inputMint: string, amountIn: U64, rpc: Rpc): Quote {
    if pool.vaultAddresses.None? then Failure(MissingVaults)
    else
      var (tokenVault, solVault) := pool.vaultAddresses.value;
      match FetchAccounts(rpc, [tokenVault, solVault])
      case Failure(error) => Failure(error)
      case Success(accounts) =>
        if tokenVault !in accounts || solVault !in accounts then Failure(AccountMissing)
        else
          match (accounts[tokenVault].splBalance, accounts[solVault].splBalance)
          case (Some(token), Some(sol)) =>
            var (reserveIn, reserveOut) :=
              if inputMint == WSOL_MINT || inputMint == pool.quoteMint then (sol, token) else (token, sol);
            Success(LocalQuote(
              pool.poolAddress, PumpSwap, inputMint, amountIn,
              PumpSwapSwapOutput(reserveIn, reserveOut, amountIn),
              VaultFee(amountIn), ImpactOrZero(amountIn, reserveIn), (reserveIn, reserveOut)))
          case _ => Failure(DecodeFailed)
  }

  function QuotePumpFun(pool: KnownPool, inputMint: string, amountIn: U64, rpc: Rpc): Quote {
    match FetchAccounts(rpc, [pool.poolAddress])
    case Failure(error) => Failure(error)
    case Success(accounts) =>
      if pool.poolAddress !in accounts then Failure(AccountMissing)
      else
        match accounts[pool.poolAddress].pumpFun
        case None => Failure(DecodeFailed)
        case Some(state) =>
          if state.complete then Failure(CurveComplete)
          else
            var buying := inputMint == WSOL_MINT;
            var output := if buying then PumpFunBuyOutput(state, amountIn) else PumpFunSellOutput(state, amountIn);
            var fee := if buying then amountIn / 100 else output / 100;
            var (reserveIn, reserveOut) :=
              if buying then (state.virtualSolReserves, state.virtualTokenReserves)
              else (state.virtualTokenReserves, state.virtualSolReserves);
            Success(LocalQuote(
              pool.poolAddress, PumpFun, inputMint, amountIn, output, fee,
              ImpactOrZero(amountIn, reserveIn), (reserveIn, reserveOut)))
  }

  function QuoteRaydiumClmm(pool: KnownPool, inputMint: string, amountIn: U64, rpc: Rpc): Quote {
    match FetchAccounts(rpc, [pool.poolAddress])
    case Failure(error) => Failure(error)
    case Success(accounts) =>
      if pool.poolAddress !in accounts then Failure(AccountMissing)
      else
        match accounts[pool.poolAddress].clmm
        case None => Failure(DecodeFailed)
        case Some(state) =>
          var feeBps := pool.dex.FeeBps();
          var output := CL.WhirlpoolSwapOutput(
            state.sqrtPriceX64, state.liquidity, amountIn, feeBps, inputMint == state.mint0);
          Success(LocalQuote(
            pool.poolAddress, RaydiumClmm, inputMint, amountIn, output,
            ProportionalFee(amountIn, feeBps), 0.0, (0, 0)))
  }

  function QuoteOrca(pool: KnownPool, inputMint: string, amountIn: U64, rpc: Rpc): Quote {
    match FetchAccounts(rpc, [pool.poolAddress])
    case Failure(error) => Failure(error)
    case Success(accounts) =>
      if pool.poolAddress !in accounts then Failure(AccountMissing)
      else
        match (accounts[pool.poolAddress].sqrtPrice, accounts[pool.poolAddress].whirlpool)
        case (Some(sqrtPrice), Some(state)) =>
          var feeBps := WhirlpoolFeeBps(state.feeRate);
          var output := CL.WhirlpoolSwapOutput(
            sqrtPrice, state.liquidity, amountIn, feeBps, inputMint == state.mintA);
          Success(LocalQuote(
            pool.poolAddress, Orca, inputMint, amountIn, output,
            ProportionalFee(amountIn, feeBps), 0.0, (0, 0)))
        case _ => Failure(DecodeFailed)
  }

  // ----- one pool, from accounts fetched before -----

  function QuoteFromCache(pool: KnownPool, inputMint: string, amountIn: U64, accounts: map<string, Account>): Quote {
    match pool.dex
    case Raydium => QuoteRaydiumFromCache(pool, inputMint, amountIn, accounts)
    case PumpSwap => QuotePumpSwapFromCache(pool, inputMint, amountIn, accounts)
    case PumpFun => QuotePumpFunFromCache(pool, inputMint, amountIn, accounts)
    case RaydiumClmm => QuoteClmmFromCache(pool, inputMint, amountIn, accounts)
    case Orca => QuoteOrcaFromCache(pool, inputMint, amountIn, accounts)
    case _ => Failure(UnsupportedDex)
  }

  function QuoteRaydiumFromCache(
    pool: KnownPool, inputMint: string, amountIn: U64, accounts: map<string, Account>): Quote
  {
    if pool.vaultAddresses.None? then Failure(MissingVaults)
    else
      var (coinVault, pcVault) := pool.vaultAddresses.value;
      if coinVault !in accounts || pcVault !in accounts then Failure(AccountMissing)
      else
        match (accounts[coinVault].splBalance, accounts[pcVault].splBalance)
        case (Some(coin), Some(pc)) =>
          var (reserveIn, reserveOut) :=
            if inputMint == pool.quoteMint || inputMint == WSOL_MINT then (pc, coin) else (coin, pc);
          Success(LocalQuote(
            pool.poolAddress, Raydium, inputMint, amountIn,
            RaydiumSwapOutput(reserveIn, reserveOut, amountIn),
            VaultFee(amountIn), ImpactOfAtLeastOne(amountIn, reserveIn), (reserveIn, reserveOut)))
        case _ => Failure(DecodeFailed)
  }

  function QuotePumpSwapFromCache(
    pool: KnownPool, inputMint: string, amountIn: U64, accounts: map<string, Account>): Quote
  {
    if pool.vaultAddresses.None? then Failure(MissingVaults)
    else
      var (tokenVault, solVault) := pool.vaultAddresses.value;
      if tokenVault !in accounts || solVault !in accounts then Failure(AccountMissing)
      else
        match (accounts[tokenVault].splBalance, accounts[solVault].splBalance)
        case (Some(token), Some(sol)) =>
          var (reserveIn, reserveOut) :=
            if inputMint == WSOL_MINT || inputMint == pool.quoteMint then (sol, token) else (token, sol);
          Success(LocalQuote(
            pool.poolAddress, PumpSwap, inputMint, amountIn,
            PumpSwapSwapOutput(reserveIn, reserveOut, amountIn),
            VaultFee(amountIn), ImpactOfAtLeastOne(amountIn, reserveIn), (reserveIn, reserveOut)))
        case _ => Failure(DecodeFailed)
  }

  function QuotePumpFunFromCache(
    pool: KnownPool, inputMint: string, amountIn: U64, accounts: map<string, Account>): Quote
  {
    if pool.poolAddress !in accounts then Failure(AccountMissing)
    else
      match accounts[pool.poolAddress].pumpFun
      case None => Failure(DecodeFailed)
      case Some(state) =>
        if state.complete then Failure(CurveComplete)
        else if inputMint == WSOL_MINT then
          Success(LocalQuote(
            pool.poolAddress, PumpFun, inputMint, amountIn, PumpFunBuyOutput(state, amountIn), amountIn / 100,
            ImpactOfAtLeastOne(amountIn, state.virtualSolReserves),
            (state.virtualSolReserves, state.virtualTokenReserves)))
        else
          var output := PumpFunSellOutput(state, amountIn);
          Success(LocalQuote(
            pool.poolAddress, PumpFun, inputMint, amountIn, output, output / 100,
            ImpactOfAtLeastOne(amountIn, state.virtualTokenReserves),
            (state.virtualTokenReserves, state.virtualSolReserves)))
  }

  function QuoteClmmFromCache(
    pool: KnownPool, inputMint: string, amountIn: U64, accounts: map<string, Account>): Quote
  {
    if pool.poolAddress !in accounts then Failure(AccountMissing)
    else
      match accounts[pool.poolAddress].clmm
      case None => Failure(DecodeFailed)
      case Some(state) =>
        var feeBps := pool.dex.FeeBps();
        Success(LocalQuote(
          pool.poolAddress, RaydiumClmm, inputMint, amountIn,
          CL.WhirlpoolSwapOutput(state.sqrtPriceX64, state.liquidity, amountIn, feeBps, inputMint == state.mint0),
          ProportionalFee(amountIn, feeBps), 0.0, (0, 0)))
  }

  function QuoteOrcaFromCache(
    pool: KnownPool, inputMint: string, amountIn: U64, accounts: map<string, Account>): Quote
  {
    if pool.poolAddress !in accounts then Failure(AccountMissing)
    else
      match (accounts[pool.poolAddress].sqrtPrice, accounts[pool.poolAddress].whirlpool)
      case (Some(sqrtPrice), Some(state)) =>
        var feeBps := WhirlpoolFeeBps(state.feeRate);
        Success(LocalQuote(
          pool.poolAddress, Orca, inputMint, amountIn,
          CL.WhirlpoolSwapOutput(sqrtPrice, state.liquidity, amountIn, feeBps, inputMint == state.mintA),
          ProportionalFee(amountIn, feeBps), 0.0, (0, 0)))
      case _ => Failure(DecodeFailed)
  }

  // ----- batched and individual quotes -----

  /** The accounts a pool's quote reads. */
  function AddressesOf(pool: KnownPool): seq<string> {
    match pool.dex
    case Raydium | PumpSwap =>
      if pool.vaultAddresses.None? then [] else [pool.vaultAddresses.value.0, pool.vaultAddresses.value.1]
    case PumpFun | Orca | RaydiumClmm => [pool.poolAddress]
    case _ => []
  }

  /** Both codes print the same price impact, except for an empty input reserve. */
  predicate SameImpact(q: LocalQuote) {
    q.dex.RaydiumClmm? || q.dex.Orca? || 0 < q.reserves.0 || q.inputAmount == 0
  }

  /**
    The batched quote succeeds exactly when the individual one does, with the
    same output, fee and reserves, and is equal exactly when `SameImpact`.
   */
  predicate Agrees(batched: Quote, single: Quote) {
    && (batched.Success? <==> single.Success?)
    && (single.Success? ==>
          && batched.value.(priceImpactBps := single.value.priceImpactBps) == single.value
          && (batched == single <==> SameImpact(single.value)))
  }

  lemma ImpactsEqualIff(amountIn: U64, reserveIn: U64)
    ensures ImpactOfAtLeastOne(amountIn, reserveIn) == ImpactOrZero(amountIn, reserveIn)
       <==> 0 < reserveIn || amountIn == 0
  {
    if reserveIn == 0 {
      assert amountIn as real / 1.0 == amountIn as real;
    }
  }

  /** `cache` holds what the chain has for every account the pool reads. */
  predicate Covers(cache: map<string, Account>, accounts: map<string, Account>, pool: KnownPool) {
    forall a | a in AddressesOf(pool) ::
      (a in cache <==> a in accounts) && (a in cache ==> cache[a] == accounts[a])
  }

  lemma CacheAgrees(
    pool: KnownPool, inputMint: string, amountIn: U64, cache: map<string, Account>, accounts: map<string, Account>)
    requires Covers(cache, accounts, pool)
    ensures Agrees(QuoteFromCache(pool, inputMint, amountIn, cache), QuoteSwap(pool, inputMint, amountIn, Up(accounts)))
  {
    var single := QuoteSwap(pool, inputMint, amountIn, Up(accounts));
    if single.Success? {
      ImpactsEqualIff(amountIn, single.value.reserves.0);
    }
    match pool.dex
    case Raydium | PumpSwap =>
      if pool.vaultAddresses.Some? {
        SameAccounts(pool.vaultAddresses.value.0, cache, accounts, pool);
        SameAccounts(pool.vaultAddresses.value.1, cache, accounts, pool);
      }
    case PumpFun | Orca | RaydiumClmm =>
      SameAccounts(pool.poolAddress, cache, accounts, pool);
    case _ =>
  }

  lemma SameAccounts(a: string, cache: map<string, Account>, accounts: map<string, Account>, pool: KnownPool)
    requires Covers(cache, accounts, pool) && a in AddressesOf(pool)
    ensures a in cache <==> a in accounts
    ensures a in cache ==> cache[a] == accounts[a]
    ensures match FetchAccounts(Up(accounts), AddressesOf(pool))
            case Success(own) => (a in own <==> a in accounts) && (a in own ==> own[a] == accounts[a])
            case Failure(_) => false
  {
  }

  lemma NothingQuotedWhenDown(pool: KnownPool, inputMint: string, amountIn: U64)
    ensures QuoteSwap(pool, inputMint, amountIn, Down).Failure?
  {
  }

  lemma NoAddressesNoQuote(pool: KnownPool, inputMint: string, amountIn: U64, accounts: map<string, Account>)
    requires AddressesOf(pool) == []
    ensures QuoteFromCache(pool, inputMint, amountIn, accounts).Failure?
  {
  }

  predicate AllIn(wanted: seq<string>, addresses: seq<string>) {
    forall a | a in wanted :: a in addresses
  }

  lemma FirstIsIn(wanted: seq<string>, addresses: seq<string>)
    requires AllIn(wanted, addresses)
    ensures wanted != [] ==> addresses != []
  {
    if wanted != [] {
      assert wanted[0] in addresses;
    }
  }

  /** A cache fetched for at least the pool's own accounts quotes like the pool alone. */
  lemma FetchedTogetherAgrees(
    pool: KnownPool, inputMint: string, amountIn: U64, rpc: Rpc, addresses: seq<string>, cache: map<string, Account>)
    requires AllIn(AddressesOf(pool), addresses)
    requires FetchAccounts(rpc, addresses) == Success(cache)
    ensures Agrees(QuoteFromCache(pool, inputMint, amountIn, cache), QuoteSwap(pool, inputMint, amountIn, rpc))
  {
    if rpc.Up? {
      CacheAgrees(pool, inputMint, amountIn, cache, rpc.accounts);
    } else {
      FirstIsIn(AddressesOf(pool), addresses);
      NoAddressesNoQuote(pool, inputMint, amountIn, cache);
      NothingQuotedWhenDown(pool, inputMint, amountIn);
    }
  }

  /** One fetch for all pools; one result per pool, in order, as if each had been quoted on its own. */
  method QuoteAllPools(pools: seq<KnownPool>, inputMint: string, amountIn: U64, rpc: Rpc) returns (quotes: seq<Quote>)
    ensures |quotes| == |pools|
    ensures forall i | 0 <= i < |pools| :: Agrees(quotes[i], QuoteSwap(pools[i], inputMint, amountIn, rpc))
  {
    var addresses: seq<string> := [];
    for i := 0 to |pools|
      invariant forall k | 0 <= k < i :: AllIn(AddressesOf(pools[k]), addresses)
    {
      var pool := pools[i];
      match pool.dex
      case Raydium | PumpSwap =>
        if pool.vaultAddresses.Some? {
          addresses := addresses + [pool.vaultAddresses.value.0];
          addresses := addresses + [pool.vaultAddresses.value.1];
        }
      case PumpFun | Orca | RaydiumClmm =>
        addresses := addresses + [pool.poolAddress];
      case _ =>
    }

    var fetched := FetchAccounts(rpc, addresses);
    if fetched.Failure? {
      forall i | 0 <= i < |pools| {
        NothingQuotedWhenDown(pools[i], inputMint, amountIn);
      }
      return seq(|pools|, _ => Failure(RpcFailed));
    }

    quotes := [];
    for i := 0 to |pools|
      invariant |quotes| == i
      invariant forall k | 0 <= k < i :: Agrees(quotes[k], QuoteSwap(pools[k], inputMint, amountIn, rpc))
    {
      FetchedTogetherAgrees(pools[i], inputMint, amountIn, rpc, addresses, fetched.value);
      quotes := quotes + [QuoteFromCache(pools[i], inputMint, amountIn, fetched.value)];
    }
  }
}
