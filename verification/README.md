# solana-arb: a verified model of the local arbitrage engine

This project models, in Dafny, the part of solana-arb that turns on-chain account
state into reported arbitrage: the AMM swap arithmetic, the quoter, the cost model,
the cross-venue search over pools and the pool registry in front of it. Around that
core it models the long-lived components: the volume tracker, the price graph and
the detector's dedup memory, the process-wide Jupiter rate limiter, the WebSocket
pool monitor, the forge swap debounce and the stale-reserve observation.
`dafny verify dfyconfig.toml` checks everything.

## How it is organised

| file | what it is about |
|---|---|
| `Amm`, `AmmMachine`, `PoolRuns`, `MachineSplits`, `CurveSplits`, `RoundTrips` | the constant-product formula over unbounded integers, the u128/u64 code against it, and value results over runs, splits (on vault pools and on bonding curves) and round trips |
| `ConcentratedLiquidity` | the sqrt-price approximation of Orca and Raydium CLMM pools |
| `Prices`, `FeeFilter`, `RouteFilter`, `OrcaFees` | venue prices, the detector's spread formula, and whether its linear fees can hide a profitable route: on constant-product venues, on all venues, and by the fee of an Orca pool |
| `CostModel`, `TipFractions` | exactness, conservation, monotonicity and break-even of the cost model |
| `Quoter`, `PoolRegistry`, `GridSearch`, `Scanner`, `SamePool`, `ScanResults` | individual and batched quotes, the registry, the two searches, and what the scanner can report |
| `QuoteFigures`, `ScanReports` | every figure of a quote in terms of the accounts, and every figure of a reported route in terms of pools, quotes and costs |
| `VolumeTracker`, `PriceGraph`, `Detector`, `RateLimiter`, `RequestSpacing`, `PoolMonitor`, `ForgeFeed`, `Observation` | the components around the core |
| `PriceEvents`, `VolumeAlerts` | the prices the pool monitor sends as equations on the balances, and volume alerts counted on the swaps of the run |
| `Reporting` | which of the routes with a positive spread the detector reports |
| `Wrappers`, `MachineInts`, `Types` | options and results, machine integers, shared types |

Code that updates state in place is a class (`LocalScanner`, `VolumeTracker`,
`PriceGraph`, `Detector`, `PoolMonitor`, `ForgeFeed`) or a method with a loop; its
contract ties the new state to specification functions, and the results about whole
runs are lemmas about those functions. The rate limiter is a transition system whose
steps are the points where tasks can interleave.

## What the model assumes

- Integers have the widths of the source and wrap around as in a release build;
  `as u64` on a float truncates and saturates.
- Prices, spreads, fees in basis points and the cost model's fractions are exact reals.
- Chain state is one fixed map from address to account for the duration of a scan, and
  an account is the tuple of what each decoder makes of its bytes. The RPC endpoint is
  up or down for a whole scan.
- Clocks are integers that never go backwards, with one reading per call. Map iteration
  order is arbitrary.
- The quoters treat every pool as a pair of the token and SOL, and check less than that: a
  vault pool takes its second vault for the SOL side, a concentrated pool compares the
  input with its first mint only. Where a result depends on it, the exact condition is
  part of the result (`SamePool.RunsBothWays`).

## What turned out not to hold, and when it does

- **Machine arithmetic.** `constant_product_swap` equals its formula exactly when the
  input reserve is empty or `amount * fee_factor * reserve_out` fits in 128 bits, and
  never pays more than the formula. Buy legs of the scanner's size, and the way back on
  the same pool, always fit; a sell leg elsewhere need not. The 5x check does not
  catch that: a sell leg whose exact output it would reject can wrap to one it accepts,
  which the scanner reports as a profit.
- **Splitting a trade** through `constant_product_swap`, as on vault pools, never helps
  exactly when the product of the whole trade fits in 128 bits. Once it wraps around, the
  whole pays so little that some split in two pays strictly more. Against an empty input
  reserve the first lamport revives the pool, and splitting helps exactly when the rest of
  the trade then buys something. Trades of the scanner's size on a vault reserve that is
  not empty are never worth splitting.
- **Splitting on a bonding curve** does help, because the 1% fee is rounded down on every
  trade: pieces of 99 lamports pay none. A buy of an amount is never worth splitting on any
  curve exactly when it is below 100 lamports. On a given curve the same threshold is exact
  while the tokens left stay three times the SOL reserve, unit for unit, and when the
  product wraps around; otherwise no split helps where the fee's lamports would buy
  nothing. A tenth of a SOL against 30 SOL and 1.073 billion tokens buys 35531 token units
  more in two pieces. A sale whose product fits is never worth splitting below 100
  lamports of gross output; on a curve with four token units or more for a lamport, it
  always is from 201 on, and so is every sale whose product wraps around.
- **The detector's linear fees**, on constant-product venues, leave every profitable route
  a positive net spread, except between two bonding curves for amounts below 3354 lamports
  at which rounding removes the curves' fees (60 lamports, for one). The same goes for
  Raydium CLMM legs. An Orca pool is quoted with its own fee but always estimated at
  25 bps: every profitable route between it and another DEX has a positive spread exactly
  when its fee is at least 14.83 bps against Raydium and PumpSwap, 13.71 bps against
  PumpFun and 4.84 bps against Raydium CLMM; between two Orca pools it takes both fees
  together, exactly when they leave at most 99.7017914432% of an amount. A scan at
  no cost can report a route without a positive spread; a route that pays for the default
  costs has one, whatever the Orca fee.
- **The detector's selection** examines one pair only, the cheapest and the priciest fresh
  venue, so a positive spread is not yet a report. Whatever the prices, the pair examined
  qualifies whenever some pair does exactly when there are at most two fresh venues or all
  charge equal fees. PumpFun at 1.000, Raydium at 1.001 and PumpSwap at 1.011: the route
  between the two vault pools gains, and nothing is ever reported or remembered. Where the
  selection is fair and the threshold zero, a route with a positive spread leads to a
  report, of its own venues or of a better pair, or to one made before within 5 bps.
- **Same-pool round trips** never gain exactly when their two legs run in opposite
  directions. They do not on a vault pool whose quote mint is the token, nor on a
  concentrated pool whose first mint is neither SOL nor the token, which pool discovery
  does not exclude; on both, a back-run can be reported as profitable.
- **Cost conservation** holds exactly when the slippage does not exceed the output and
  what is left after all costs fits in an i64. A penalty of 20000 bps on one lamport
  breaks it.
- **A loss can be read as a profit.** A minimum tip above 2^63 turns negative in
  `tip as i64`. The exact condition under which no output of at most the input ever nets a
  profit is on input, penalty, fixed costs and minimum tip (`CostModel.NoGainIff`).
- **A late discovery overwrites** the list registered while it ran: the registry stores
  what it found without looking again. Its answer is that of a lookup made then exactly
  when the token is still unknown or both lists deduplicate alike.
- **Net profit is monotone** in the output, for outputs up to a bound, exactly when the
  tip fraction exceeds 1 by less than a lamport on that bound, or is so large that the
  saturated tip turns negative.
- **Break-even on 1 SOL.** The repository's own README says roughly 140 bps of gross
  edge; by the code it is 1,023,145,729 lamports of raw output, an edge of 231 bps. The
  model follows the code.
- **Batched quotes** differ from individual ones in the price impact, exactly when the
  input reserve is empty and the amount is not zero on a vault or curve pool. The
  reported `fee_amount` is exact while 25 times the amount fits in a u64.
- **The age limit** of quotes counts whole seconds: under a limit of n seconds a quote is
  used until it is n + 1 seconds old.
- **The dedup memory** never suppresses a pair whose cheapest price is zero, because its
  spread is infinite.
- **The rate limiter** spaces the grants, not the requests. Requests sent within D ms of
  their grants are 600 - D ms apart and no better, so one request per 600 ms holds exactly
  when every request leaves the moment it is granted.

## Model

| member | source | states |
|---|---|---|
| Amm.PumpFunNet | crates/arb-feed/src/pool_decoder.rs:353-355 | the bonding curve's fee leaves between 99% of the amount and that of one lamport more |
| Amm.SwapIsLargestPayout | crates/arb-feed/src/pool_decoder.rs:385-403 | a payout is at most the output exactly when it keeps the fee-adjusted product of the reserves |
| Amm.SwapBound | crates/arb-feed/src/pool_decoder.rs:385-403 | a swap pays strictly less than the reserve, and at most the input's share of it |
| AmmMachine.MachineSwapIsExactIff | crates/arb-feed/src/pool_decoder.rs:385-403 | the u128/u64 code never pays more than the formula, and equals it exactly when the product fits in 128 bits or the input reserve is empty |
| AmmMachine.BuyLegNeverOverflows | crates/arb-sim/src/local_scanner.rs:119-120 | no trade of at most 2 SOL overflows a swap, for all reserves and fees |
| AmmMachine.SellLegCanOverflow | crates/arb-feed/src/pool_decoder.rs:396-402 | u64 reserves and an amount on which the product does wrap around |
| PoolRuns.ProductNeverFalls | crates/arb-feed/src/pool_decoder.rs:383-403 | over every run of swaps in both directions the product of the reserves never falls and positive reserves stay positive |
| PoolRuns.NoRunExtractsValue | crates/arb-feed/src/pool_decoder.rs:383-403 | no run of swaps leaves the pool with no more of either asset and strictly less of one |
| PoolRuns.EmptyReserveRevived | crates/arb-feed/src/pool_decoder.rs:386-388 | against an empty input reserve two pieces buy something and the whole nothing |
| PoolRuns.FormulaNeverHelpsIff | crates/arb-feed/src/pool_decoder.rs:385-403 | by the formula over unbounded integers, splitting never helps exactly when the input reserve is not empty, there is nothing to pay, or the fee takes all |
| MachineSplits.PiecesNeverPayMore | crates/arb-feed/src/pool_decoder.rs:385-403 | in u128/u64 arithmetic, any number of pieces pays at most the whole while the product of the whole fits in 128 bits |
| MachineSplits.WrappedWholeIsBeaten | crates/arb-feed/src/pool_decoder.rs:396-402 | once that product wraps around, some split in two pays strictly more |
| MachineSplits.SplittingCanHelp | crates/arb-feed/src/pool_decoder.rs:396-402 | reserves of 10^18 and 10^19 on which two equal pieces pay more than the whole |
| MachineSplits.SplittingNeverHelpsIff | crates/arb-feed/src/pool_decoder.rs:385-403 | for each trade, no split pays more exactly when its product fits in 128 bits, or, on an empty input reserve, when the rest after one lamport buys nothing |
| MachineSplits.SmallTradesAreNeverSplit | crates/arb-feed/src/pool_decoder.rs:385-403 | by the formula alone, as on vault pools, trades of at most 2 SOL are never worth splitting on a reserve that is not empty |
| CurveSplits.PiecesBuyAtMostFeeless | crates/arb-feed/src/pool_decoder.rs:349-363 | no split of a curve buy buys more than the whole amount would without a fee |
| CurveSplits.FeeBuysNothing | crates/arb-feed/src/pool_decoder.rs:349-363 | where the fee's lamports would buy nothing, no split of a buy helps |
| CurveSplits.SmallBuysNeverSplit | crates/arb-feed/src/pool_decoder.rs:349-363 | buys below 100 lamports are never worth splitting |
| CurveSplits.SaveOneLamport | crates/arb-feed/src/pool_decoder.rs:349-363 | from 100 lamports on, while the curve stays deep, three pieces buy strictly more than the whole |
| CurveSplits.WrappedBuyIsBeaten | crates/arb-feed/src/pool_decoder.rs:349-363 | once the product of a buy wraps around, some split in two buys strictly more |
| CurveSplits.DeepCurveSplitsIff | crates/arb-feed/src/pool_decoder.rs:349-363 | on a curve that stays deep or whose product wraps, a buy is never worth splitting exactly when it is below 100 lamports |
| CurveSplits.BuyAmountNeverSplitsIff | crates/arb-feed/src/pool_decoder.rs:349-363 | an amount is never worth splitting, on any curve, exactly when it is below 100 lamports |
| CurveSplits.ScannerBuysSplitIff | crates/arb-sim/src/local_scanner.rs:119-120 | every trade of the scanner on a curve of 30 SOL and 1.073 billion tokens: never worth splitting exactly below 100 lamports |
| CurveSplits.TenthOfASolSplits | crates/arb-feed/src/pool_decoder.rs:349-363 | on it, a tenth of a SOL buys 35531 units more in two pieces |
| CurveSplits.SmallSalesNeverSplit | crates/arb-feed/src/pool_decoder.rs:367-381 | sales of a gross output below 100 lamports are never worth splitting while their product fits |
| CurveSplits.RoomySalesSplit | crates/arb-feed/src/pool_decoder.rs:367-381 | a sale of 100 lamports or more is, where its own rounding leaves room for that of two pieces |
| CurveSplits.OrdinarySalesSplit | crates/arb-feed/src/pool_decoder.rs:367-381 | a sale of 201 lamports or more is, on a curve with four token units or more for a lamport |
| CurveSplits.WrappedSaleIsBeaten | crates/arb-feed/src/pool_decoder.rs:367-381 | once the product of a sale wraps around, some split in two pays strictly more after fees |
| CurveSplits.OrdinarySaleSplitsIff | crates/arb-feed/src/pool_decoder.rs:367-381 | on such a curve, outside 100 to 200 lamports, a sale is never worth splitting exactly when its product fits and it pays less than 100 gross |
| CurveSplits.SaleNeverSplitsIff | crates/arb-feed/src/pool_decoder.rs:367-381 | among gross outputs of at most 10 SOL, one is never worth splitting, on any curve where the product fits, exactly when it is below 100 lamports |
| RoundTrips.MarginalBound | crates/arb-feed/src/pool_decoder.rs:385-403 | a swap pays at most the input valued at the reserve ratio |
| RoundTrips.ConstantProductNeverGains | crates/arb-feed/src/pool_decoder.rs:338-345 | a swap there and back on unchanged reserves returns at most the input, wrap-around included |
| RoundTrips.PumpFunNeverGains | crates/arb-feed/src/pool_decoder.rs:349-381 | buying and selling back on one bonding curve returns at most the input |
| RoundTrips.ReturnLegNeverOverflows | crates/arb-sim/src/local_scanner.rs:429-450 | the second leg of a same-pool round trip of at most 2 SOL cannot overflow |
| ConcentratedLiquidity.LegBound | crates/arb-feed/src/pool_decoder.rs:200-234 | a leg pays at most the input valued at the pool's price, in either direction |
| ConcentratedLiquidity.KeptBound | crates/arb-feed/src/pool_decoder.rs:200-234 | a leg pays at most the price of what its fee and the 10 bps held back leave |
| ConcentratedLiquidity.OutputIs | crates/arb-feed/src/pool_decoder.rs:200-234 | a leg pays nothing on an empty pool, at a zero price or for nothing; else the largest whole number within what the fee and the 10 bps leave, valued at the squared root price, in either direction |
| ConcentratedLiquidity.NothingPaidIff | crates/arb-feed/src/pool_decoder.rs:200-234 | the output is 0 exactly then, or when less than one unit is left |
| ConcentratedLiquidity.RoundTripNeverGains | crates/arb-feed/src/pool_decoder.rs:200-234 | a concentrated-liquidity round trip returns at most the input |
| Prices.CurveAndVaultPricesAgree | crates/arb-feed/src/pool_decoder.rs:287-294 | the curve price is the vault price of the same reserves at 6 and 9 decimals |
| FeeFilter.SpreadSign | crates/arb-detect/src/detector.rs:102-104 | the net spread is positive exactly when the reserve ratios clear the fees, whatever the decimals and the SOL price |
| FeeFilter.RouteBound | crates/arb-feed/src/pool_decoder.rs:338-403 | what a route through two venues can return, in terms of both reserve ratios |
| FeeFilter.FilterIsSound | crates/arb-detect/src/detector.rs:102-104 | on constant-product venues, a route that returns more than it took has a strictly positive net spread as a pair, except where rounding between two curves hides it |
| FeeFilter.ProfitClearsFees | crates/arb-detect/src/detector.rs:102-104 | the same as an inequality on the reserves |
| FeeFilter.HiddenAmountsAreTiny | crates/arb-feed/src/pool_decoder.rs:349-381 | amounts rounding can hide are below 3354 lamports and no multiple of 100 |
| FeeFilter.HiddenRoute | crates/arb-feed/src/pool_decoder.rs:349-381 | for each such amount, two curves with a profitable route whose spread is not positive |
| FeeFilter.SixtyLamportsHide | crates/arb-feed/src/pool_decoder.rs:349-381 | 60 lamports are such an amount |
| FeeFilter.CurveRoutesAreFlaggedIff | crates/arb-detect/src/detector.rs:102-104 | between two curves every profitable route of an amount has a positive net spread exactly when rounding hides nothing at that amount |
| RouteFilter.FlaggedIff | crates/arb-detect/src/detector.rs:102-104 | for venues of every kind, the net spread is positive exactly when the price ratio exceeds the fee factor |
| RouteFilter.FilterIsSoundOnAllVenues | crates/arb-detect/src/detector.rs:102-104 | a gaining route through any two kinds of venue has a positive net spread when the fees of its legs cover the detector's estimate |
| OrcaFees.SufficientRatesCover | crates/arb-detect/src/detector.rs:102-104 | on different DEXs the fees cover the estimate when every Orca leg charges its minimum rate |
| OrcaFees.PartnerSells | crates/arb-sim/src/amm_quoter.rs:328-373 | below the minimum rate, a route from an Orca pool to each other DEX that gains |
| OrcaFees.NotFlagged | crates/arb-detect/src/detector.rs:102-107 | and whose net spread is not positive |
| OrcaFees.OrcaRoutesAreFlaggedIff | crates/arb-detect/src/detector.rs:102-104 | every gaining route between an Orca pool and another DEX has a positive net spread exactly when its fee rate reaches the minimum for that DEX |
| OrcaFees.OrcaPairHides | crates/arb-sim/src/amm_quoter.rs:328-373 | for two Orca fee rates that together leave more, a gaining route whose net spread is not positive |
| OrcaFees.OrcaPairsAreFlaggedIff | crates/arb-detect/src/detector.rs:102-104 | every gaining route between two Orca pools has a positive net spread exactly when their fees together leave at most 99.7017914432% |
| OrcaFees.DefaultProfitIsFlagged | crates/arb-sim/src/cost_model.rs:22-33 | a route that nets a profit under the default costs has a positive net spread, whatever the Orca fees |
| CostModel.ComputeExplained | crates/arb-sim/src/cost_model.rs:40-91 | slippage and tip are whole fractions, fixed costs those of all transactions, gross and net what is left as i64, and the profit in bps times the input is 10000 times the gross profit |
| CostModel.ExplainedIff | crates/arb-sim/src/cost_model.rs:40-91 | and these relations determine every figure from the model, the input and the raw output |
| CostModel.NetIsExactIff | crates/arb-sim/src/cost_model.rs:66-76 | when the gross profit fits in an i64, the net profit is exact exactly when it fits too, for every model |
| CostModel.NothingWraps | crates/arb-sim/src/cost_model.rs:66-76 | of a model that fits, every cast and sum is exact |
| CostModel.AlwaysExactIffFits | crates/arb-sim/src/cost_model.rs:66-76 | the net profit is exact for all outputs exactly when input, fixed costs and minimum tip fit in an i64 together |
| CostModel.ConservationIff | crates/arb-sim/src/cost_model.rs:66-90 | for every model and all amounts, raw output is input + slippage + fixed + tip + net exactly when the slippage does not exceed the output and the rest fits in an i64 |
| CostModel.FittingModelConserves | crates/arb-sim/src/cost_model.rs:66-90 | a model that fits, with a penalty of at most 10000 bps, conserves |
| CostModel.ConservationCanFail | crates/arb-sim/src/cost_model.rs:54-56 | a model and an output on which conservation fails |
| CostModel.PenaltyWithinOutput | crates/arb-sim/src/cost_model.rs:54-56 | a penalty of at most 10000 bps never exceeds the output |
| TipFractions.NetMonotoneIff | crates/arb-sim/src/cost_model.rs:58-72 | for outputs up to a bound, a larger output never nets less exactly when the tip fraction exceeds 1 by less than a lamport on the bound or saturates the tip |
| TipFractions.OvertakingTip | crates/arb-sim/src/cost_model.rs:58-63 | for each larger fraction below 2, an output that nets less than the one before it |
| TipFractions.TipOfOne | crates/arb-sim/src/cost_model.rs:58-72 | for each fraction from 2 up to saturation, the same among the first three outputs |
| CostModel.NoGainWithoutOutput | crates/arb-sim/src/cost_model.rs:66-72 | where losses stay losses, an output of at most the input never nets a profit, for every penalty and tip fraction |
| CostModel.NoGainIff | crates/arb-sim/src/cost_model.rs:66-76 | no output of at most the input ever nets a profit exactly when the smallest loss, at an output equal to the input, wrapped at 64 bits, plus that output stays within an i64 |
| CostModel.LossReadsAsProfit | crates/arb-sim/src/cost_model.rs:66-76 | a minimum tip above 2^63 on which an output of nothing nets a profit |
| CostModel.HalfTipBreakEvenIff | crates/arb-sim/src/cost_model.rs:50-72 | with half of the profit tipped, net is positive exactly when gross exceeds fixed costs plus the larger of fixed costs and minimum tip |
| CostModel.DefaultProfitIff | crates/arb-sim/src/cost_model.rs:22-33 | under the default model profitability is one threshold on the raw output |
| CostModel.DocumentedEdgeIsNotEnough | README.md:110 | 140 bps on 1 SOL lose money; the threshold is 1,023,145,729 lamports |
| Quoter.CacheAgrees | crates/arb-sim/src/amm_quoter.rs:435-638 | a quote from cached accounts succeeds exactly when the individual one does, with equal output, fee and reserves, and is equal except for an empty input reserve |
| Quoter.FetchedTogetherAgrees | crates/arb-sim/src/amm_quoter.rs:66-102 | one fetch for at least a pool's own accounts serves it like its own fetch, also when the endpoint is down |
| Quoter.QuoteAllPools | crates/arb-sim/src/amm_quoter.rs:377-433 | one result per pool, in order, agreeing with the individual quote |
| QuoteFigures.VaultQuoteIs | crates/arb-sim/src/amm_quoter.rs:123-177 | of a vault pool's quote: which reserve goes in, the output as the largest payout, the fee, the price impact as an equation, and success exactly with both balances |
| QuoteFigures.CurveQuoteIs | crates/arb-sim/src/amm_quoter.rs:275-325 | of a curve's quote: the hundredth taken before a buy and after a sale, the largest payout in between, and success exactly on an open curve |
| QuoteFigures.TickQuoteIs | crates/arb-sim/src/amm_quoter.rs:181-373 | of a concentrated pool's quote: direction by the first mint, output at the squared root price, fee by the pool's rate (25 bps on Raydium) |
| QuoteFigures.BatchedQuoteIs | crates/arb-sim/src/amm_quoter.rs:435-638 | a batched quote has the figures of the individual one, with the impact on vault pools and curves counted against a reserve of at least one unit |
| QuoteFigures.FetchIs | crates/arb-sim/src/amm_quoter.rs:66-102 | a fetch fails exactly when something is asked of an endpoint that is down, and else finds exactly what is on the chain |
| QuoteFigures.FailureIs | crates/arb-sim/src/amm_quoter.rs:106-373 | which failure each pool gives, in the order of the checks |
| PoolRegistry.DedupByDex | crates/arb-sim/src/local_scanner.rs:492-502 | the loop computes `Dedup` |
| PoolRegistry.DedupKeepsFirst | crates/arb-sim/src/local_scanner.rs:492-502 | the first pool of each DEX is kept, so the DEX set is the same |
| PoolRegistry.DedupIsSubsequence | crates/arb-sim/src/local_scanner.rs:492-502 | the result is the pools at the first position of each DEX, in order, one per DEX |
| PoolRegistry.DedupIdempotent | crates/arb-sim/src/local_scanner.rs:492-502 | deduplicating again changes nothing |
| PoolRegistry.CacheIsTransparent | crates/arb-sim/src/local_scanner.rs:505-536 | over every run in which registrations, reads and the later stores of lookups interleave, the answers are those of a log that keeps raw lists |
| PoolRegistry.UninterruptedLookup | crates/arb-sim/src/local_scanner.rs:514-536 | a read directly followed by its store is the lookup as one access |
| PoolRegistry.LateStoreIff | crates/arb-sim/src/local_scanner.rs:528-533 | a late store answers, and leaves the registry, as a lookup made at that moment would exactly when the token is unknown by then or its list deduplicates alike (for the registry: is the deduplicated one, or nothing was found) |
| PoolRegistry.LateStoreOverwrites | crates/arb-sim/src/local_scanner.rs:528-533 | a list registered while discovery ran is overwritten by what discovery found |
| PoolRegistry.RegistryStaysUseful | crates/arb-sim/src/local_scanner.rs:505-536 | no entry is ever empty |
| PoolRegistry.RepeatedLookupAgrees | crates/arb-sim/src/local_scanner.rs:514-536 | a lookup that found pools is repeated from the cache whatever discovery says next |
| GridSearch.EarlyRefinesBest | crates/arb-sim/src/local_scanner.rs:145-242 | stopping at the first profit against searching everything, on any grid |
| Scanner.QuoteEach | crates/arb-sim/src/local_scanner.rs:278-296 | the buy quotes that are not empty, in pool order |
| Scanner.QuoteBatched | crates/arb-sim/src/local_scanner.rs:145-159 | the same list from one batched fetch |
| GridSearch.RowsAreQuoted | crates/arb-sim/src/local_scanner.rs:147-159 | the kept buy quotes are, in pool order, exactly the positive ones |
| Scanner.TradeIs | crates/arb-sim/src/local_scanner.rs:119-120 | a trade is the whole lamports of the fraction of the signal within the bounds, the low bound below and the high bound from there on |
| Scanner.VisitPair | crates/arb-sim/src/local_scanner.rs:178-213 | a route is built exactly for pairs on different DEXs with non-empty legs that pass the 5x check |
| Scanner.SearchAll | crates/arb-sim/src/local_scanner.rs:298-358 | the first route, in pool order, of maximal net profit; failure exactly when there is none |
| Scanner.SearchUntilProfit | crates/arb-sim/src/local_scanner.rs:162-242 | the first profitable route in pool order, or else the best one |
| Scanner.TradeBack | crates/arb-sim/src/local_scanner.rs:388-471 | success exactly on a sell trigger whose DEX has a pool, with a first leg that is not empty and a second one within the 5x check; then both pools are the first one of that DEX and the figures are those of the round trip |
| Scanner.LocalScanner.RegisterPools | crates/arb-sim/src/local_scanner.rs:505-510 | the new registry: a non-empty list replaces the token's entry |
| Scanner.LocalScanner.GetOrDiscoverPools | crates/arb-sim/src/local_scanner.rs:514-536 | the answer and the new registry, for cached, discovered and failed lookups |
| Scanner.LocalScanner.ScanToken | crates/arb-sim/src/local_scanner.rs:247-359 | the periodic scan reports the best route over all pairs of the pools looked up |
| Scanner.LocalScanner.ScanTriggered | crates/arb-sim/src/local_scanner.rs:110-243 | the triggered scan trades 20% of the signal within 0.1 to 2 SOL and reports the first profitable route, or else the best |
| Scanner.LocalScanner.ScanSamePoolBackrun | crates/arb-sim/src/local_scanner.rs:373-488 | the back-run's result, at 10% of the signal within 0.05 to 1 SOL, with each of its failures |
| ScanReports.ShownIff | crates/arb-sim/src/local_scanner.rs:178-213 | a route names its two pools on different DEXs, the quotes of both legs and every cost figure, and is determined by its positions |
| ScanReports.BestScanIs | crates/arb-sim/src/local_scanner.rs:298-358 | the periodic scan fails exactly when no pair trades, and reports, as it is, the first pair of maximal net |
| ScanReports.EarlyScanIs | crates/arb-sim/src/local_scanner.rs:145-242 | the triggered scan fails exactly then, and reports the first profitable pair, or else the first of maximal net |
| ScanReports.BackrunIs | crates/arb-sim/src/local_scanner.rs:373-488 | a back-run succeeds exactly on a sell trigger when the first pool of its DEX trades there and back, and shows that round trip |
| SamePool.VaultQuote | crates/arb-sim/src/amm_quoter.rs:123-177 | what a vault pool quotes for each input mint, and that it fails exactly when a vault cannot be read |
| SamePool.OrientedRoundTripNeverGains | crates/arb-sim/src/amm_quoter.rs:106-373 | on all five kinds of pool a round trip whose legs run both ways returns at most the input |
| SamePool.MisorientedVaults | crates/arb-sim/src/amm_quoter.rs:151 | a chain state on which 1000 lamports come back as 98422 when the token is the quote side of a vault pool |
| SamePool.MisorientedMints | crates/arb-sim/src/amm_quoter.rs:181-220 | a chain state on which 0.1 SOL comes back as 0.31 on a concentrated pool whose first mint is a third one |
| SamePool.NeverGainsIff | crates/arb-sim/src/amm_quoter.rs:106-373 | on every kind of pool, for all chain states with a given first mint, round trips never gain exactly when their legs run both ways |
| SamePool.VaultFeeIsExactIff | crates/arb-sim/src/amm_quoter.rs:160 | the reported fee is 25 bps exactly while 25 times the amount fits in a u64 |
| ScanResults.TriggeredRefinesExhaustive | crates/arb-sim/src/local_scanner.rs:145-358 | the triggered scan succeeds and is profitable exactly when the exhaustive one is; same result without a profit, first profitable route with one |
| ScanResults.BestNetIsThatOfLargestOutput | crates/arb-sim/src/local_scanner.rs:298-358 | the reported net is that of any admissible pair with the largest SOL output |
| ScanResults.BuyLegIsExact | crates/arb-sim/src/local_scanner.rs:119-120 | buy legs of the scanner's trades equal the formula |
| ScanResults.ReportedRouteIsExact | crates/arb-sim/src/local_scanner.rs:186-213 | after the 5x check every cost figure of a route is exact and inside an i64 |
| ScanResults.WrappedRouteIsReported | crates/arb-sim/src/local_scanner.rs:186 | a route whose sell leg wraps around: its exact output fails the 5x check, the output it computes is reported as a profit |
| ScanResults.BackrunNeverProfits | crates/arb-sim/src/local_scanner.rs:373-488 | a same-pool back-run is never profitable on an oriented pool, for every chain state, signal and cost model whose losses stay losses |
| ScanResults.MisorientedMintsProfit | crates/arb-sim/src/local_scanner.rs:539-600 | on a concentrated pool with a third first mint, which discovery admits, a back-run can be profitable |
| ScanResults.BackrunsNeverProfitIff | crates/arb-sim/src/local_scanner.rs:373-488 | back-runs on a pool are never profitable exactly when its round trip runs both ways |
| ScanResults.ProfitableRouteIsFlagged | crates/arb-detect/src/detector.rs:102-104 | the two ends of every profitable route of the scanner, on all five DEXs, have as a pair a positive net spread from the same state when its Orca legs charge the minimum rate |
| ScanResults.DefaultProfitableRouteIsFlagged | crates/arb-detect/src/detector.rs:102-104 | under the default cost model this needs no condition on the Orca fee |
| ScanResults.ScannerFindsHiddenRoute | crates/arb-sim/src/local_scanner.rs:298-358 | for every Orca fee below 14.83 bps, a scan at no cost that reports a profit whose two ends have no positive spread |
| ScanResults.ProfitableScanExists | crates/arb-sim/src/local_scanner.rs:247-359 | two venues whose prices differ twofold give an admissible, profitable pair under the default model |
| VolumeTracker.FrontPruningIsExact | crates/arb-detect/src/volume_tracker.rs:38-44 | popping from the front keeps exactly the entries in the window |
| VolumeTracker.PruneAll | crates/arb-detect/src/volume_tracker.rs:106-114 | every history pruned, empty ones dropped |
| VolumeTracker.RecordKeeps | crates/arb-detect/src/volume_tracker.rs:30-80 | recording keeps the pruned state in step with a log that forgets nothing |
| VolumeTracker.CleanupKeeps | crates/arb-detect/src/volume_tracker.rs:101-115 | a cleanup changes no later answer |
| VolumeTracker.VolumeTracker.RecordSwap | crates/arb-detect/src/volume_tracker.rs:30-80 | the alert is that of the run so far on a never-pruned log; the kept history is the log's window |
| VolumeTracker.VolumeTracker.IsHot | crates/arb-detect/src/volume_tracker.rs:83-89 | the answer of the never-cleaned log |
| VolumeTracker.VolumeTracker.HotTokens | crates/arb-detect/src/volume_tracker.rs:92-98 | exactly the tokens that log calls hot |
| VolumeTracker.VolumeTracker.Cleanup | crates/arb-detect/src/volume_tracker.rs:101-115 | expired entries, flags and empty histories go; the log stands |
| VolumeTracker.AlertOfRunMeaning | crates/arb-detect/src/volume_tracker.rs:46-79 | in every run an alert means at least five swaps over more than 180 s, more than three fifths of them in the last minute |
| VolumeAlerts.AlertIff | crates/arb-detect/src/volume_tracker.rs:30-80 | over every run, an alert exactly when five swaps or more fall in five minutes, those of the last minute more than triple their rate, and no alert came in the 300 s before |
| VolumeAlerts.HotIff | crates/arb-detect/src/volume_tracker.rs:83-89 | a token is hot exactly within 300 s of one of its alerts |
| VolumeTracker.AlertsAreSpaced | crates/arb-detect/src/volume_tracker.rs:60-79 | two alerts for one token are at least 300 s apart in every run, with or without cleanups |
| PriceGraph.VenueKeyInjective | crates/arb-detect/src/graph.rs:74-79 | two quotes share a venue key exactly when they name the same DEX and pool |
| PriceGraph.PairOfIff | crates/arb-detect/src/graph.rs:62-72 | two quotes are of one pair exactly when base and quote mint agree, a missing quote mint being the mint "unknown" |
| PriceGraph.IsStale | crates/arb-detect/src/graph.rs:81-83 | under a limit of n seconds a quote lives until it is n + 1 seconds old |
| PriceGraph.PriceGraph.Update | crates/arb-detect/src/graph.rs:28-50 | every slot holds the last quote of its pair and venue; those of the pair younger than the limit plus one second are returned |
| PriceGraph.PriceGraph.PreviousPrice | crates/arb-detect/src/graph.rs:53-60 | the price of the last quote of the same pair and venue |
| PriceGraph.LastQuoteMatches | crates/arb-detect/src/graph.rs:28-60 | a slot's quote was quoted for that pair on that venue |
| PriceGraph.LastQuoteIsLast | crates/arb-detect/src/graph.rs:28-60 | a slot holds the last quote of the history with the same mints, DEX and pool |
| Detector.FindExtremes | crates/arb-detect/src/detector.rs:72-88 | a cheapest and a priciest venue, whatever the iteration order |
| Detector.Detector.Process | crates/arb-detect/src/detector.rs:60-162 | delta against the previous quote of the venue; of the fresh quotes, a report of the two extreme venues exactly when they qualify and do not repeat the memory |
| Detector.ReportIsMaximal | crates/arb-detect/src/detector.rs:72-107 | with positive prices a report has maximal gross spread over all pairs of fresh venues |
| Detector.GrossSpreadIgnoresOrder | crates/arb-detect/src/detector.rs:72-101 | the gross spread does not depend on map iteration order |
| Detector.ReportJoinsTwoVenues | crates/arb-detect/src/detector.rs:90-97 | a report joins two venues, the buy strictly cheaper |
| Detector.QualifiesIff | crates/arb-detect/src/detector.rs:95-107 | two quotes qualify exactly when they come from two venues and the sell price exceeds the buy price by both DEXs' fees and the threshold |
| Detector.ReportIs | crates/arb-detect/src/detector.rs:142-159 | the figures of a report as equations on the two quotes it joins |
| Detector.DeltaIff | crates/arb-detect/src/detector.rs:165-186 | a delta is sent exactly for a move of 20 bps or more from a positive price, and shows it |
| Detector.DedupKeyInjective | crates/arb-detect/src/detector.rs:111 | a key stands for one base mint and one quote mint |
| Detector.ReportDependsOnPair | crates/arb-detect/src/detector.rs:110-128 | whether a sighting is reported depends on the earlier ones of its own base and quote mint only |
| Detector.ReportedIff | crates/arb-detect/src/detector.rs:95-128 | over every run, a sighting is reported exactly when it qualifies and does not repeat the last report of its base and quote mint |
| Detector.ReportsOfPairDiffer | crates/arb-detect/src/detector.rs:110-128 | consecutive reports of one base and quote mint differ in their DEX pair or by at least 5 bps |
| Detector.FirstOfPairIsReported | crates/arb-detect/src/detector.rs:110-128 | a first sighting of its mints is reported exactly when it qualifies, whatever other mints did |
| Detector.RepeatsIff | crates/arb-detect/src/detector.rs:113-119 | one spread repeats another exactly on the same two DEXs, less than 5 bps apart |
| Detector.MemoryIsLastReport | crates/arb-detect/src/detector.rs:110-128 | over every run the memory holds the last report of each key |
| Detector.ConsecutiveReportsDiffer | crates/arb-detect/src/detector.rs:110-128 | consecutive reports of a key differ in their DEX pair or by at least 5 bps |
| Detector.QualifyingIsRemembered | crates/arb-detect/src/detector.rs:110-128 | after a qualifying sighting the memory names its DEX pair within 5 bps; other keys are untouched |
| Detector.RepeatedReportIff | crates/arb-detect/src/detector.rs:110-128 | a report repeats at once exactly when the cheapest price is zero |
| Reporting.ExaminedPairIsBest | crates/arb-detect/src/detector.rs:72-107 | with at most two fresh venues, or equal fees, no pair of a spread that is not negative beats the pair examined |
| Reporting.NeverHidesIff | crates/arb-detect/src/detector.rs:72-107 | whatever the prices, the pair examined qualifies whenever some pair does exactly when there are at most two fresh venues or their fees are all equal |
| Reporting.UnequalFeesHide | crates/arb-detect/src/detector.rs:72-107 | two unequal fees and a third venue: prices at which a pair qualifies and the one examined does not |
| Reporting.MemoryWasReported | crates/arb-detect/src/detector.rs:110-128 | what the memory holds was reported at some step of the run |
| Reporting.FlaggedRouteIsReported | crates/arb-detect/src/detector.rs:60-162 | where the selection is fair, a route whose spread is positive and reaches the threshold leads to a report, or to one made before within 5 bps |
| Reporting.GainingRouteIsReported | crates/arb-detect/src/detector.rs:60-162 | the same for every route between different DEXs that returns more than it took, at a threshold of at most zero |
| Reporting.ProfitableRouteIsReported | crates/arb-detect/src/detector.rs:60-162 | the same for every profitable route of the scanner on the same state |
| Reporting.VaultRouteIsFlagged | crates/arb-detect/src/detector.rs:102-104 | three venues, two of which make a gaining route with a positive net spread |
| Reporting.GainingRouteCanBeHidden | crates/arb-detect/src/detector.rs:72-107 | of these three the detector reports and remembers nothing, whatever the run before |
| RateLimiter.StepKeepsInvariant | crates/arb-sim/src/jupiter_quote.rs:71-82 | permit, lock and timing invariants survive every step of every task, cancellation included |
| RateLimiter.GrantsAreSpaced | crates/arb-sim/src/jupiter_quote.rs:71-82 | in every interleaving consecutive grants are at least 600 ms apart |
| RateLimiter.GrantsPerWindow | crates/arb-sim/src/jupiter_quote.rs:12-20 | any window of W ms holds at most W / 600 + 1 grants |
| RateLimiter.NeverStuck | crates/arb-sim/src/jupiter_quote.rs:71-82 | while a task is inside the limiter some task can move on |
| RateLimiter.CancelReleases | crates/arb-sim/src/jupiter_quote.rs:71-82 | a task can be dropped at every await, and leaves permit and lock free if it had them |
| RateLimiter.GrantedWhenDue | crates/arb-sim/src/jupiter_quote.rs:71-82 | left alone, a task with the lock is granted at once or 600 ms after the last grant, and no later |
| RequestSpacing.RequestsAreSpaced | crates/arb-sim/src/jupiter_quote.rs:12-20 | in every run, requests sent within D ms of their grants are at least 600 - D ms apart |
| RequestSpacing.RequestsPerWindow | crates/arb-sim/src/jupiter_quote.rs:12-20 | any window of W ms holds at most (W + D) / 600 + 1 of them |
| RequestSpacing.RequestsMayBunch | crates/arb-sim/src/jupiter_quote.rs:86-126 | for each delay up to 600 ms, a run whose two requests are only 600 - D ms apart |
| RequestSpacing.AlwaysSpacedIff | crates/arb-sim/src/jupiter_quote.rs:12-20 | all runs with delay D keep requests G ms apart exactly when D + G is at most 600 (or G is 0) |
| RequestSpacing.FullGapIff | crates/arb-sim/src/jupiter_quote.rs:12-20 | one request per 600 ms holds exactly when none is delayed |
| PoolMonitor.PoolMonitor.constructor | crates/arb-feed/src/pool_monitor.rs:78-95 | the state a run starts from: metadata without balances, and no curve complete |
| PoolMonitor.PoolMonitor.Connect | crates/arb-feed/src/pool_monitor.rs:210-235 | a session forgets subscriptions, numbers its requests from 1 and keeps balances and completion bits |
| PoolMonitor.PoolMonitor.HandleMessage | crates/arb-feed/src/pool_monitor.rs:262-379 | the new state and the events sent, for every message |
| PoolMonitor.PoolMonitor.HandleAccount | crates/arb-feed/src/pool_monitor.rs:326-402 | the same for an account update of each role |
| PoolMonitor.GraduationsAreRisingEdges | crates/arb-feed/src/pool_monitor.rs:97-115 | over every run, reconnects included, graduation events of a curve are sent exactly at the rising edges of its `complete` bit |
| PoolMonitor.VaultsHoldLatest | crates/arb-feed/src/pool_monitor.rs:326-341 | over every run the vault state holds the latest decoded balances |
| PoolMonitor.RaydiumPricesAreLatest | crates/arb-feed/src/pool_monitor.rs:381-388 | every Raydium price sent is that of the latest balances of both vaults of one pool |
| PoolMonitor.NoPriceAfterCompletion | crates/arb-feed/src/pool_monitor.rs:354-376 | every curve price sent comes from a curve whose latest `complete` bit is false |
| PriceEvents.VaultUpdateIs | crates/arb-feed/src/pool_monitor.rs:326-341 | an update of a vault is priced with its new balance and the other one |
| PriceEvents.VaultPriceIs | crates/arb-feed/src/pool_monitor.rs:381-402 | one price exactly when both balances are known and coins are left, in dollars, as an equation on balances, decimals and the SOL price |
| PriceEvents.WhirlpoolPriceIs | crates/arb-feed/src/pool_monitor.rs:343-351 | the same for a concentrated pool and its squared root price, from either side |
| PriceEvents.CurvePriceIs | crates/arb-feed/src/pool_monitor.rs:354-376 | the same for an open curve |
| PoolMonitor.RoutingFollowsConfirmations | crates/arb-feed/src/pool_monitor.rs:276-305 | a notification belongs to the account of the session's last valid confirmation of its subscription |
| ForgeFeed.ClassificationIsSymmetric | crates/arb-feed/src/forge_feed.rs:94-121 | the reverse trade has the same token and size and the opposite direction |
| ForgeFeed.ClassifiedIff | crates/arb-feed/src/forge_feed.rs:94-121 | a swap is classified exactly when one side is SOL or a stablecoin; direction, token and size, as an equation on the amount |
| ForgeFeed.SignalIs | crates/arb-feed/src/forge_feed.rs:186-196 | a signal carries the swap's data and its classification |
| ForgeFeed.SizeThresholds | crates/arb-feed/src/forge_feed.rs:94-121 | the size filter is one SOL or 150 dollars at the mints' decimals |
| ForgeFeed.ForgeFeed.HandleSwap | crates/arb-feed/src/forge_feed.rs:164-199 | signals exactly when a feed that never cleans its map would; the map after it |
| ForgeFeed.AfterSignalIs | crates/arb-feed/src/forge_feed.rs:179-184 | the map gains the token; over 500 entries it keeps exactly those of the last 30 s |
| ForgeFeed.SignalledIffQuiet | crates/arb-feed/src/forge_feed.rs:176-183 | in every run a qualifying swap is signalled exactly when its token has not been for three seconds |
| Observation.MostLiquidIsLastMaximum | crates/arb-sim/src/observation.rs:174-183 | the fallback is the last pair of maximal liquidity on the DEX |
| Observation.FoundIsFirst | crates/arb-sim/src/observation.rs:168-172 | the exact match is the first pair at the address |
| Observation.ObservedIs | crates/arb-sim/src/observation.rs:80-135 | which pair is observed, what is reported of it, and when and how an observation fails |
| Observation.NamesAgreeIff | crates/arb-sim/src/observation.rs:174-177 | names are compared up to the case of letters |
| Observation.OnOneDex | crates/arb-sim/src/observation.rs:185-196 | no listing is on two DEXs, but for Raydium's two kinds of pool |
| Observation.FairPriceIsAMean | crates/arb-sim/src/observation.rs:103-124 | the fair price lies within any bounds on the contributing prices; the deviation has the sign of the difference |
| Observation.FairPriceBalances | crates/arb-sim/src/observation.rs:103-124 | the fair price is the liquidity-weighted mean of the other pairs: their weighted distances from it cancel out |
| Observation.DeltaMeaning | crates/arb-sim/src/observation.rs:117-121 | the deviation leads from the fair price back to the pool's price |
| Observation.ReferenceIgnoresOrder | crates/arb-sim/src/observation.rs:96-124 | fair price and deviation do not depend on the order of the listing |
| Observation.ObservationMeaning | crates/arb-sim/src/observation.rs:80-135 | a successful observation reports a listed pair with its price and liquidity against the market of all pairs at other addresses, and counts these |

## Left out

- HTTP, RPC, WebSocket connections, JSON, base58 and base64, Postgres, the web API and the command line: plumbing; decoded messages and accounts are inputs.
- Byte-offset decoders: their decoded structs are inputs.
- PoolRuns.FormulaNeverHelpsIff: about the formula alone; what the u128/u64 code does is `MachineSplits.SplittingNeverHelpsIff`.
- Splitting on a bonding curve: reserves move by the lamports after the fee on a buy and by the gross output on a sale, and the SOL reserve is not empty. Between the conditions given for one curve (a shallow buy whose fee lamports buy something, a sale of 100 to 200 lamports) the answer depends on rounding and is not stated.
- Rounding of f64: prices, spreads and fractions are exact reals. In the scanner's range the cost model's casts agree with the integer formulas (`CostModel.DefaultProfitIff`); near a threshold of the detector, the debounce or the volume window a rounded value may fall on the other side.
- Floating-point specials other than the infinite spread of a zero price: a price that is infinite or not a number is not modelled.
- Panics of a debug build on overflow, and of slicing short addresses in log lines.
- An endpoint that fails for some requests of a scan and not for others, and the limit of 100 accounts per request.
- Discovery of pools and resolution of vaults and decimals (`local_scanner.rs` from line 539, `pool_monitor.rs` 119-201): what they return is an input.
- Concurrent access inside the class: `Scanner.LocalScanner.GetOrDiscoverPools` is one uninterrupted lookup. What changes when registrations and other stores come between its read and its store is in `PoolRegistry`, over runs.
- Scanner.LocalScanner.ScanTriggered: does not take the trigger's DEX and direction, which the source only logs. `sell_pools`, a filtered list there, is a skip in the loop here.
- Scanner.SearchAll, Scanner.SearchUntilProfit, Scanner.VisitPair and Scanner.TradeBack: steps of the scan functions, split off so that each has a contract.
- Detector.Detector.Examine, VolumeTracker.VolumeTracker.Push and ForgeFeed.ForgeFeed.Filter: parts of one function of the source each, split off for the proof.
- Detector.DedupKeyInjective: mints without a colon, as all base58 addresses are; the same goes for the results about pairs of mints.
- PoolMonitor.PoolMonitor.Connect: leaves out the reconnect loop's sleep and its exit on a clean close; a run is any sequence of sessions.
- PoolMonitor.PoolMonitor.HandleMessage: takes decoded messages; both channels are one sequence, in sending order.
- ForgeFeed.ForgeFeed.HandleSwap: leaves out the exit from the loop when the signal channel is closed.
- Detector.Detector.Process: leaves out symbols, identifiers, detection latency and the profit estimate in dollars. The net spread, unlike the gross one, may depend on map order when prices tie across DEXs with different fees.
- A pair whose quote mint is the literal text "unknown" shares a key with quotes that have none; the graph is modelled with that collision.
- Routes between two pools of one DEX other than PumpFun and Orca: the scanner never pairs them; `RouteFilter.FilterIsSoundOnAllVenues` covers them under its condition on the fees.
- How long a task takes from a grant to its request: a parameter of the results about requests.
- Fairness of the rate limiter: `RateLimiter.NeverStuck` says that someone can move, not who does.
- Crossing of ticks in concentrated liquidity: the source approximates it, and the approximation is what is modelled.
- `scanner.rs`, `simulator.rs`, `atomic.rs`: they depend on Jupiter's replies and hold a simpler copy of the cost arithmetic.
- `jito.rs`, `tx_builder.rs`: Solana SDK types and byte packing.
- `pool_cache.rs`, `whale_tracker.rs`, `rugcheck.rs`, `swap_analyzer.rs` and the CLI's token list: single-map facts that would only add easy members.
