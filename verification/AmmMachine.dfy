/**
  When the u128/u64 arithmetic of `ConstantProductSwap` agrees with the formula,
  and that it never pays more.
 */
module AmmMachine {
  import opened MachineInts
  import opened Amm

  const MAX_TRADE_LAMPORTS: nat := 2_000_000_000

  lemma WrapBelow(n: nat)
    ensures WrapU128(n) <= n
    ensures WrapU128(n) == n <==> n < U128_LIMIT
    ensures U128_LIMIT <= n ==> WrapU128(n) <= n - U128_LIMIT
  {
    var q := n / U128_LIMIT;
    assert n == q * U128_LIMIT + WrapU128(n);
    if n < U128_LIMIT {
      assert q == 0;
    }
  }

  /** The product and the denominator never reach 2^128. */
  lemma SmallTerms(x: U64, a: U64, f: nat)
    requires f <= BPS
    ensures 0 <= a * f <= U64_LIMIT * BPS
    ensures 0 <= x * BPS + a * f <= 2 * U64_LIMIT * BPS < U128_LIMIT
  {
    MulMonotone(a, U64_LIMIT, f);
    MulMonotone(f, BPS, U64_LIMIT);
    NonNegative(a, f);
  }

  lemma QuotientGap(n: nat, m: nat, d: nat)
    requires 0 < d && m + d <= n
    ensures m / d < n / d
  {
    QuotientIsLargest(m, d, m / d);
    QuotientIsLargest(n, d, m / d + 1);
    assert (m / d + 1) * d == m / d * d + d;
  }

  /**
    The machine result never exceeds the formula, and equals it exactly when
    amount * feeFactor * reserveOut fits in 128 bits.
   */
  lemma MachineSwapIsExactIff(x: U64, y: U64, a: U64, feeBps: nat)
    requires feeBps <= BPS
    ensures ConstantProductSwap(x, y, a, feeBps) <= ExactSwap(x, y, a, feeBps)
    ensures ConstantProductSwap(x, y, a, feeBps) == ExactSwap(x, y, a, feeBps)
       <==> x == 0 || a * (BPS - feeBps) * y < U128_LIMIT
  {
    var f := BPS - feeBps;
    SmallTerms(x, a, f);
    NonNegative(a * f, y);
    if x != 0 && y != 0 && a != 0 {
      SwapBound(x, y, a, feeBps);
      WrapBelow(a * f);
      WrapBelow(x * BPS + a * f);
      MachineQuotient(a * f * y, x * BPS + a * f);
    }
  }

  lemma MachineQuotient(n: nat, d: nat)
    requires 0 < d < U128_LIMIT && n / d < U64_LIMIT
    ensures WrapU64(WrapU128(n) / d) <= n / d
    ensures WrapU64(WrapU128(n) / d) == n / d <==> n < U128_LIMIT
  {
    var m := WrapU128(n);
    WrapBelow(n);
    QuotientIsLargest(m, d, m / d);
    QuotientIsLargest(n, d, m / d);
    QuotientIsLargest(m, d, 0);
    if U128_LIMIT <= n {
      QuotientGap(n, m, d);
    }
  }

  /** Buying with at most the scanner's largest trade cannot overflow. */
  lemma BuyLegNeverOverflows(y: U64, a: U64, feeBps: nat)
    requires feeBps <= BPS && a <= MAX_TRADE_LAMPORTS
    ensures a * (BPS - feeBps) * y < U128_LIMIT
  {
    var f := BPS - feeBps;
    MulMonotone(a, MAX_TRADE_LAMPORTS, f);
    MulMonotone(f, BPS, MAX_TRADE_LAMPORTS);
    NonNegative(a, f);
    MulMonotone(a * f, MAX_TRADE_LAMPORTS * BPS, y);
    MulMonotone(y, U64_LIMIT, MAX_TRADE_LAMPORTS * BPS);
  }

  /** A pool and an amount, all of type u64, on which the sell leg does overflow. */
  lemma SellLegCanOverflow()
    ensures var x, y, a: U64 := U64_LIMIT - 1, U64_LIMIT - 1, U64_LIMIT - 1;
            RaydiumSwapOutput(x, y, a) < ExactSwap(x, y, a, CP_FEE_BPS)
  {
    var m: U64 := U64_LIMIT - 1;
    assert m * 9975 * m >= U128_LIMIT;
    MachineSwapIsExactIff(m, m, m, CP_FEE_BPS);
  }
}
