/**
  Swap arithmetic of crates/arb-feed/src/pool_decoder.rs.

  `ExactSwap` is the constant-product formula over unbounded integers;
  `ConstantProductSwap` is the same formula in the u128/u64 arithmetic of the
  program.  What pools keep holds of both, because the machine result is never
  larger; how pieces compare with the whole is another matter (`MachineSplits`).
 */
module Amm {
  import opened MachineInts
  import opened Wrappers

  const BPS: nat := 10_000
  const CP_FEE_BPS: nat := 25

  datatype PumpFunState = PumpFunState(
    virtualTokenReserves: U64,
    virtualSolReserves: U64,
    realTokenReserves: U64,
    realSolReserves: U64,
    complete: bool)

  // ----- the formula -----

  function ExactSwap(reserveIn: nat, reserveOut: nat, amountIn: nat, feeBps: nat): nat
    requires feeBps <= BPS
  {
    if reserveIn == 0 || reserveOut == 0 || amountIn == 0 then 0
    else
      var net := amountIn * (BPS - feeBps);
      NonNegative(net, reserveOut);
      net * reserveOut / (reserveIn * BPS + net)
  }

  function ConstantProductSwap(reserveIn: U64, reserveOut: U64, amountIn: U64, feeBps: nat): U64
    requires feeBps <= BPS
  {
    if reserveIn == 0 || reserveOut == 0 || amountIn == 0 then 0
    else
      var feeFactor := BPS - feeBps;
      var numerator := WrapU128(WrapU128(amountIn * feeFactor) * reserveOut);
      var denominator := WrapU128(reserveIn * BPS + amountIn * feeFactor);
      if denominator == 0 then 0 else WrapU64(numerator / denominator)
  }

  function RaydiumSwapOutput(reserveIn: U64, reserveOut: U64, amountIn: U64): U64 {
    ConstantProductSwap(reserveIn, reserveOut, amountIn, CP_FEE_BPS)
  }

  function PumpSwapSwapOutput(reserveIn: U64, reserveOut: U64, amountIn: U64): U64 {
    ConstantProductSwap(reserveIn, reserveOut, amountIn, CP_FEE_BPS)
  }

  /** SOL left after the bonding curve's 1% fee, which is rounded down. */
  function PumpFunNet(amount: nat): (net: nat)
    ensures net <= amount
    ensures 100 * net <= 99 * (amount + 1)
    ensures 99 * amount <= 100 * net
  {
    amount - amount / 100
  }

  function PumpFunBuyOutput(state: PumpFunState, solIn: U64): U64 {
    if state.virtualSolReserves == 0 || state.virtualTokenReserves == 0 then 0
    else ConstantProductSwap(state.virtualSolReserves, state.virtualTokenReserves, PumpFunNet(solIn), 0)
  }

  function PumpFunSellOutput(state: PumpFunState, tokensIn: U64): U64 {
    if state.virtualSolReserves == 0 || state.virtualTokenReserves == 0 then 0
    else PumpFunNet(ConstantProductSwap(state.virtualTokenReserves, state.virtualSolReserves, tokensIn, 0))
  }

  // ----- integer helpers -----

  lemma NonNegative(a: int, b: int)
    requires 0 <= a && 0 <= b
    ensures 0 <= a * b
  {
  }

  lemma MulMonotone(a: int, b: int, c: int)
    requires a <= b && 0 <= c
    ensures a * c <= b * c
    ensures c * a <= c * b
  {
  }

  lemma Distribute(a: int, b: int, c: int)
    ensures a * (b + c) == a * b + a * c
    ensures (b + c) * a == b * a + c * a
  {
  }

  lemma CancelFactor(a: int, b: int, c: int)
    requires 0 < c && a * c <= b * c
    ensures a <= b
  {
    if b < a {
      MulMonotone(b + 1, a, c);
    }
  }

  lemma QuotientIsLargest(n: nat, d: nat, p: int)
    requires 0 < d
    ensures p <= n / d <==> p * d <= n
  {
    var q := n / d;
    assert n == q * d + n % d;
    if p <= q {
      MulMonotone(p, q, d);
    } else {
      MulMonotone(q + 1, p, d);
    }
  }

  // ----- what the formula means -----

  /**
    Paying out p for amountIn keeps the fee-adjusted product of the reserves:
    only (BPS - feeBps) / BPS of the input counts as deposited.
   */
  predicate KeepsAdjustedProduct(x: nat, y: nat, amountIn: nat, feeBps: nat, p: int)
    requires feeBps <= BPS
  {
    x * BPS * y <= (x * BPS + amountIn * (BPS - feeBps)) * (y - p)
  }

  /** The output is the largest payout that keeps the fee-adjusted product. */
  lemma SwapIsLargestPayout(x: nat, y: nat, a: nat, feeBps: nat, p: int)
    requires feeBps <= BPS && 0 < x && 0 < y
    ensures p <= ExactSwap(x, y, a, feeBps) <==> KeepsAdjustedProduct(x, y, a, feeBps, p)
  {
    var net, cap := a * (BPS - feeBps), x * BPS;
    NonNegative(a, BPS - feeBps);
    NonNegative(net, y);
    assert (cap + net) * (y - p) == cap * y + net * y - p * (cap + net);
    QuotientIsLargest(net * y, cap + net, p);
    if a == 0 {
      assert net * y / (cap + net) == 0;
    }
  }

  /** What a swap can cost the pool, as a plain inequality for later proofs. */
  lemma SwapBound(x: nat, y: nat, a: nat, feeBps: nat)
    requires feeBps <= BPS
    ensures var out := ExactSwap(x, y, a, feeBps);
            && out * (x * BPS + a * (BPS - feeBps)) <= a * (BPS - feeBps) * y
            && (0 < y ==> out < y)
            && out <= y
  {
    var out, net := ExactSwap(x, y, a, feeBps), a * (BPS - feeBps);
    NonNegative(a, BPS - feeBps);
    NonNegative(net, y);
    if x != 0 && y != 0 && a != 0 {
      QuotientIsLargest(net * y, x * BPS + net, out);
      QuotientIsLargest(net * y, x * BPS + net, y);
      assert y * (x * BPS + net) == x * BPS * y + net * y;
      NonNegative(x * BPS - 1, y - 1);
      assert x * BPS * y > 0;
    }
  }
}
