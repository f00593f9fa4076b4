/** Swapping into a constant-product pool and straight back, on unchanged reserves. */
module RoundTrips {
  import opened MachineInts
  import opened Amm
  import opened AmmMachine

  /** mid was bought for a, back was bought for mid: nothing is gained, even with no fee. */
  lemma ThereAndBack(x: nat, y: nat, a: nat, mid: nat, back: nat)
    requires 0 < y
    requires mid * x <= a * y && back * y <= mid * x
    ensures back <= a
  {
    CancelFactor(back, a, y);
  }

  /** A swap pays at most the input valued at the marginal price. */
  lemma MarginalBound(x: nat, y: nat, a: nat, feeBps: nat, out: nat)
    requires feeBps <= BPS && out <= ExactSwap(x, y, a, feeBps)
    ensures out * x <= a * y
  {
    var f, best := BPS - feeBps, ExactSwap(x, y, a, feeBps);
    SwapBound(x, y, a, feeBps);
    NonNegative(a, f);
    MulMonotone(f, BPS, a);
    MulMonotone(out, best, x);
    NonNegative(best, a * f);
    Distribute(best, x * BPS, a * f);
    assert best * (x * BPS) == BPS * (best * x);
    MulMonotone(a * f, a * BPS, y);
    assert a * BPS * y == BPS * (a * y);
  }

  lemma ConstantProductNeverGains(x: U64, y: U64, a: U64, feeBps: nat)
    requires feeBps <= BPS
    ensures var mid := ConstantProductSwap(x, y, a, feeBps);
            ConstantProductSwap(y, x, mid, feeBps) <= a
  {
    var mid := ConstantProductSwap(x, y, a, feeBps);
    var back := ConstantProductSwap(y, x, mid, feeBps);
    if 0 < y {
      MachineSwapIsExactIff(x, y, a, feeBps);
      MachineSwapIsExactIff(y, x, mid, feeBps);
      MarginalBound(x, y, a, feeBps, mid);
      MarginalBound(y, x, mid, feeBps, back);
      ThereAndBack(x, y, a, mid, back);
    }
  }

  lemma PumpFunNeverGains(state: PumpFunState, a: U64)
    ensures PumpFunSellOutput(state, PumpFunBuyOutput(state, a)) <= a
  {
    var x, y := state.virtualSolReserves, state.virtualTokenReserves;
    if x != 0 && y != 0 {
      ConstantProductNeverGains(x, y, PumpFunNet(a), 0);
    }
  }

  /**
    The second leg of a round trip cannot overflow either, whatever the reserves,
    when the first leg spends at most the scanner's largest trade.
   */
  lemma ReturnLegNeverOverflows(x: U64, y: U64, a: U64, feeBps: nat)
    requires feeBps <= BPS && a <= MAX_TRADE_LAMPORTS
    ensures var mid := ConstantProductSwap(x, y, a, feeBps);
            mid * (BPS - feeBps) * x < U128_LIMIT
  {
    var f, mid := BPS - feeBps, ConstantProductSwap(x, y, a, feeBps);
    MachineSwapIsExactIff(x, y, a, feeBps);
    MarginalBound(x, y, a, feeBps, mid);
    MulMonotone(a, MAX_TRADE_LAMPORTS, y);
    NonNegative(mid, x);
    MulMonotone(f, BPS, mid * x);
    Reorder(mid, f, x);
  }

  lemma Reorder(a: int, b: int, c: int)
    ensures a * b * c == a * c * b
  {
  }
}
