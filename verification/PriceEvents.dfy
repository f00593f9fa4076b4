/**
  What the prices sent by the pool monitor are, in terms of the balances and states
  behind them: each price as an equation between the two sides of its pool, the quote
  it travels in, and exactly when one is sent.
 */
module PriceEvents {
  import opened MachineInts
  import opened Wrappers
  import opened Types
  import opened Amm
  import opened Prices
  import opened Quoter
  import opened PoolMonitor

  /** Dollars per unit of the quote token. */
  function RateOf(quoteMint: string, solUsd: real): real {
    if quoteMint == "EPjFWdd5AufqSSqeM2qN1xzybapC8G4wEGGkZwyTDt1v" then 1.0 else solUsd
  }

  /** `base` units of the base token are worth `quote` units of the quote token at `rate` dollars each. */
  ghost predicate WorthInUsd(
    usd: real, base: real, quoteUnit: real, quote: real, baseUnit: real, rate: real)
  {
    exists price: real | Values(price, base, quoteUnit, quote, baseUnit) :: usd == price * rate
  }

  /** A quote of the WebSocket feed: no quote mint, no liquidity, stamped now. */
  predicate SentAs(q: PriceQuote, dex: Dex, baseMint: string, pool: string, now: int) {
    && q.dex == dex && q.baseMint == baseMint && q.poolAddress == Some(pool)
    && q.quoteMint == "" && q.liquidityUsd == 0.0 && q.source == WebSocket && q.timestamp == now
  }

  predicate OnePrice(outputs: seq<Output>) {
    |outputs| == 1 && outputs[0].Price?
  }

  // ----- vault pools -----

  /** Both balances known and some coin left: one price, of the coin in dollars; otherwise nothing. */
  lemma VaultPriceIs(v: VaultState, solUsd: real, now: int)
    ensures var sent := VaultPrice(v, solUsd, now);
            if v.coin.Some? && v.pc.Some? && v.coin.value > 0
            then
              && OnePrice(sent) && SentAs(sent[0].quote, Raydium, v.baseMint, v.poolAddress, now)
              && WorthInUsd(sent[0].quote.priceUsd, v.coin.value as real, Pow10(v.pcDecimals),
                            v.pc.value as real, Pow10(v.coinDecimals), RateOf(v.quoteMint, solUsd))
            else sent == []
  {
    if v.coin.Some? && v.pc.Some? {
      VaultPriceMeaning(v.coin.value, v.pc.value, v.coinDecimals, v.pcDecimals);
      if v.coin.value > 0 {
        var price := RaydiumPriceFromVaults(v.coin.value, v.pc.value, v.coinDecimals, v.pcDecimals).value;
        Worth(price, v.coin.value as real, Pow10(v.pcDecimals), v.pc.value as real, Pow10(v.coinDecimals),
              v.quoteMint, solUsd);
      }
    }
  }

  lemma Worth(
    price: real, base: real, quoteUnit: real, quote: real, baseUnit: real, quoteMint: string, solUsd: real)
    requires Values(price, base, quoteUnit, quote, baseUnit)
    ensures WorthInUsd(InUsd(price, quoteMint, solUsd), base, quoteUnit, quote, baseUnit, RateOf(quoteMint, solUsd))
  {
    assert InUsd(price, quoteMint, solUsd) == price * RateOf(quoteMint, solUsd);
  }

  /** What an update of either vault sends. */
  lemma VaultUpdateIs(s: State, role: AccountRole, account: Account, solUsd: real, now: int)
    requires role.CoinVault? || role.PcVault?
    ensures OutputsOf(s, role, account, solUsd, now)
         == if account.splBalance.None? || role.pool !in s.vaults then []
            else if role.CoinVault?
            then VaultPrice(s.vaults[role.pool].(coin := account.splBalance), solUsd, now)
            else VaultPrice(s.vaults[role.pool].(pc := account.splBalance), solUsd, now)
  {
  }

  // ----- concentrated pools -----

  /** A readable root price that is not zero: one price, of the base token in dollars; otherwise nothing. */
  lemma WhirlpoolPriceIs(s: State, role: AccountRole, account: Account, solUsd: real, now: int)
    requires role.Whirlpool?
    ensures var sent := OutputsOf(s, role, account, solUsd, now);
            if account.sqrtPrice.Some? && account.sqrtPrice.value > 0
            then
              && OnePrice(sent) && SentAs(sent[0].quote, Orca, role.baseMint, role.pool, now)
              && var square, rate := Square(account.sqrtPrice.value), RateOf(role.quoteMint, solUsd);
                 if role.baseIsA
                 then WorthInUsd(sent[0].quote.priceUsd, TWO_128, Pow10(role.decimalsB),
                                 square, Pow10(role.decimalsA), rate)
                 else WorthInUsd(sent[0].quote.priceUsd, square, Pow10(role.decimalsA),
                                 TWO_128, Pow10(role.decimalsB), rate)
            else sent == []
  {
    if account.sqrtPrice.Some? && account.sqrtPrice.value > 0 {
      var root := account.sqrtPrice.value;
      TickPriceMeaning(root, role.decimalsA, role.decimalsB, role.baseIsA);
      var price := OfBase(WhirlpoolPrice(root, role.decimalsA, role.decimalsB), role.baseIsA);
      if role.baseIsA {
        Worth(price, TWO_128, Pow10(role.decimalsB), Square(root), Pow10(role.decimalsA), role.quoteMint, solUsd);
      } else {
        Worth(price, Square(root), Pow10(role.decimalsA), TWO_128, Pow10(role.decimalsB), role.quoteMint, solUsd);
      }
    }
  }

  // ----- bonding curves -----

  /** The prices among what is sent. */
  function PricesOf(outputs: seq<Output>): seq<Output> {
    if outputs == [] then []
    else
      var n := |outputs| - 1;
      PricesOf(outputs[..n]) + if outputs[n].Price? then [outputs[n]] else []
  }

  lemma {:induction false} PricesAppend(a: seq<Output>, b: seq<Output>)
    ensures PricesOf(a + b) == PricesOf(a) + PricesOf(b)
    decreases |b|
  {
    if b == [] {
      assert a + b == a;
    } else {
      assert (a + b)[..|a + b| - 1] == a + b[..|b| - 1];
      PricesAppend(a, b[..|b| - 1]);
    }
  }

  lemma PriceOfOpenCurve(state: PumpFunState, pool: string, baseMint: string, solUsd: real, now: int)
    requires !state.complete && state.virtualTokenReserves > 0
    ensures var sent := CurvePrice(state, pool, baseMint, solUsd, now);
            && OnePrice(sent) && SentAs(sent[0].quote, PumpFun, baseMint, pool, now)
            && WorthInUsd(sent[0].quote.priceUsd, state.virtualTokenReserves as real, 1_000_000_000.0,
                          state.virtualSolReserves as real, 1_000_000.0, solUsd)
  {
    CurvePriceMeaning(state);
    Worth(PumpFunPriceInSol(state).value, state.virtualTokenReserves as real, 1_000_000_000.0,
          state.virtualSolReserves as real, 1_000_000.0, "", solUsd);
  }

  lemma NoPriceIn(pool: string, baseMint: string, now: int)
    ensures PricesOf([]) == [] && PricesOf([Graduated(pool, baseMint, now)]) == []
  {
    assert [Graduated(pool, baseMint, now)][..0] == [];
  }

  lemma OnePriceIn(sent: seq<Output>)
    requires OnePrice(sent)
    ensures PricesOf(sent) == sent
  {
    assert sent[..0] == [];
  }

  /** An open curve with tokens left: one price, at six decimals against SOL; otherwise none. */
  lemma CurvePriceIs(s: State, role: AccountRole, account: Account, solUsd: real, now: int)
    requires role.Curve?
    ensures var sent := PricesOf(OutputsOf(s, role, account, solUsd, now));
            if && account.pumpFun.Some? && !account.pumpFun.value.complete
               && account.pumpFun.value.virtualTokenReserves > 0
            then
              && OnePrice(sent) && SentAs(sent[0].quote, PumpFun, role.baseMint, role.pool, now)
              && WorthInUsd(sent[0].quote.priceUsd, account.pumpFun.value.virtualTokenReserves as real, 1_000_000_000.0,
                            account.pumpFun.value.virtualSolReserves as real, 1_000_000.0, solUsd)
            else sent == []
  {
    if account.pumpFun.Some? {
      var state := account.pumpFun.value;
      var graduation := Graduation(s, role.pool, role.baseMint, state.complete, now);
      var price := CurvePrice(state, role.pool, role.baseMint, solUsd, now);
      PricesAppend(graduation, price);
      NoPriceIn(role.pool, role.baseMint, now);
      CurvePriceMeaning(state);
      if !state.complete && state.virtualTokenReserves > 0 {
        PriceOfOpenCurve(state, role.pool, role.baseMint, solUsd, now);
        OnePriceIn(price);
      }
    }
  }
}
