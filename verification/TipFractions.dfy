/**
  For which tip fractions a larger output never nets less (crates/arb-sim/src/cost_model.rs),
  for all models that fit and all outputs up to a bound.
 */
module TipFractions {
  import opened MachineInts
  import opened CostModel

  ghost predicate NetMonotoneUpTo(fraction: real, top: nat) {
    forall m: CostModel, input: U64, r1: U64, r2: U64 |
      m.Fits(input) && m.jitoTipFraction == fraction && r1 <= r2 <= top ::
        m.NetProfit(input, r1) <= m.NetProfit(input, r2)
  }

  // ----- fractions that round down to the whole profit -----

  lemma Product(a: nat, b: nat, d: real)
    requires a <= b && 0.0 <= d
    ensures 0.0 <= a as real * d <= b as real * d
  {
    assert 0.0 <= (b - a) as real * d;
  }

  lemma Excess(g: nat, f: real)
    ensures g as real * f == g as real + g as real * (f - 1.0)
  {
  }

  /** On this amount the fraction exceeds 1 by less than a lamport. */
  predicate WithinALamport(amount: nat, fraction: real) {
    amount as real * (fraction - 1.0) < 1.0
  }

  lemma ShareIsAll(g: nat, f: real, top: nat)
    requires 1.0 <= f && WithinALamport(top, f) && g <= top < I64_LIMIT
    ensures Share(g, f) == g
  {
    Product(g, top, f - 1.0);
    Excess(g, f);
    CastOrder(g as real * f, g);
  }

  lemma TipIsAll(m: CostModel, gross: int, top: nat)
    requires 1.0 <= m.jitoTipFraction && WithinALamport(top, m.jitoTipFraction) && gross <= top < I64_LIMIT
    ensures m.JitoTipLamports(gross) == m.(jitoTipFraction := 1.0).JitoTipLamports(gross)
  {
    if 0 < gross {
      ShareIsAll(gross, m.jitoTipFraction, top);
      ShareIsAll(gross, 1.0, top);
    }
  }

  lemma FeesAgree(m: CostModel, f: real, input: U64, r: U64)
    ensures m.(jitoTipFraction := f).FixedCosts() == m.FixedCosts()
    ensures m.(jitoTipFraction := f).GrossProfit(input, r) == m.GrossProfit(input, r)
  {
  }

  lemma NetFollowsTip(m1: CostModel, m2: CostModel, input: U64, r: U64, gross: int)
    requires m1.FixedCosts() == m2.FixedCosts() && m1.GrossProfit(input, r) == m2.GrossProfit(input, r) == gross
    requires m1.JitoTipLamports(gross) == m2.JitoTipLamports(gross)
    ensures m1.NetProfit(input, r) == m2.NetProfit(input, r)
  {
  }

  lemma TipsAgree(m: CostModel, input: U64, r: U64, top: nat)
    requires 1.0 <= m.jitoTipFraction && WithinALamport(top, m.jitoTipFraction)
    requires input <= I64_LIMIT && r <= top < I64_LIMIT
    ensures m.NetProfit(input, r) == m.(jitoTipFraction := 1.0).NetProfit(input, r)
  {
    var gross := m.GrossProfit(input, r);
    GrossExact(m, input, r);
    FeesAgree(m, 1.0, input, r);
    TipIsAll(m, gross, top);
    NetFollowsTip(m, m.(jitoTipFraction := 1.0), input, r, gross);
  }

  // ----- fractions that saturate the tip, which is minus one as an i64 -----

  lemma ShareSaturates(g: nat, f: real)
    requires (U64_LIMIT - 2) as real <= f && 1 <= g
    ensures U64_LIMIT - 2 <= Share(g, f) && (2 <= g ==> Share(g, f) == U64_LIMIT - 1)
  {
    Product(1, g, f);
    FloorAtLeast(g as real * f, U64_LIMIT - 2);
    if 2 <= g {
      Product(2, g, f);
      FloorAtLeast(g as real * f, U64_LIMIT - 1);
    }
  }

  lemma FloorAtLeast(v: real, n: nat)
    requires n as real <= v && 1 <= n < U64_LIMIT
    ensures n <= SaturatingU64(v)
  {
    FloorIs(v, n);
  }

  lemma SaturatedNet(m: CostModel, input: U64, r: U64)
    requires (U64_LIMIT - 2) as real <= m.jitoTipFraction && m.Fits(input) && r < I64_LIMIT - 1
    ensures var gross := m.RealisticOutput(r) - input;
            m.NetProfit(input, r) ==
              if gross <= 0 then gross - m.TotalFee() - m.minJitoTipLamports
              else gross - m.TotalFee() + (U64_LIMIT - Share(gross, m.jitoTipFraction))
  {
    var gross := m.RealisticOutput(r) - input;
    GrossExact(m, input, r);
    FixedCostsExact(m);
    if 0 < gross {
      ShareSaturates(gross, m.jitoTipFraction);
      var net := gross - m.TotalFee() + (U64_LIMIT - Share(gross, m.jitoTipFraction));
      WrapI64IsExactIff(net);
      assert WrapI64(net - U64_LIMIT) == WrapI64(net);
    } else {
      WrapI64IsExactIff(gross - m.TotalFee() - m.minJitoTipLamports);
    }
  }

  lemma SaturatedIsMonotone(m: CostModel, input: U64, r1: U64, r2: U64)
    requires (U64_LIMIT - 2) as real <= m.jitoTipFraction && m.Fits(input) && r1 <= r2 < I64_LIMIT - 1
    ensures m.NetProfit(input, r1) <= m.NetProfit(input, r2)
  {
    RealisticOutputMonotone(m, r1, r2);
    SaturatedNet(m, input, r1);
    SaturatedNet(m, input, r2);
    var g1, g2 := m.RealisticOutput(r1) - input, m.RealisticOutput(r2) - input;
    if 0 < g1 {
      ShareSaturates(g1, m.jitoTipFraction);
    }
    if 0 < g2 {
      ShareSaturates(g2, m.jitoTipFraction);
    }
  }

  // ----- all other fractions above 1 -----

  /** No costs but the tip. */
  function TipOnly(f: real): CostModel {
    CostModel(0, 0, 0, 0.0, 0, f)
  }

  lemma NetOfTipOnly(f: real, r: U64)
    requires r < I64_LIMIT
    ensures TipOnly(f).NetProfit(0, r) == if r == 0 then 0 else WrapI64(r - Share(r, f))
  {
    var m := TipOnly(f);
    assert m.executionPenaltyBps / 10_000.0 == 0.0;
    assert r as real * 0.0 == 0.0;
    assert m.SlippageLamports(r) == 0;
    assert m.TotalFee() == 0;
    GrossExact(m, 0, r);
  }

  /** The first amount at which the excess over the whole profit reaches a lamport. */
  lemma {:induction false} FirstExcess(f: real, top: nat) returns (g: nat)
    requires 1.0 < f < 2.0 && !WithinALamport(top, f)
    ensures 2 <= g <= top && !WithinALamport(g, f) && WithinALamport(g - 1, f)
    decreases top
  {
    if top <= 1 {
      Product(top, 1, f - 1.0);
      assert false;
    } else if WithinALamport(top - 1, f) {
      g := top;
    } else {
      g := FirstExcess(f, top - 1);
    }
  }

  /** A fraction below 2: the tip overtakes the profit somewhere up to `top`. */
  lemma OvertakingTip(f: real, top: nat) returns (g: nat)
    requires 1.0 < f < 2.0 && !WithinALamport(top, f) && top < I64_LIMIT
    ensures 2 <= g <= top && TipOnly(f).NetProfit(0, g) < TipOnly(f).NetProfit(0, g - 1)
  {
    g := FirstExcess(f, top);
    ShareIsAll(g - 1, f, g - 1);
    Excess(g, f);
    FloorAtLeast(g as real * f, g + 1);
    DoubleBounds(g, f);
    NetOfTipOnly(f, g);
    NetOfTipOnly(f, g - 1);
    WrapI64IsExactIff(g - Share(g, f));
    WrapI64IsExactIff(0);
  }

  lemma DoubleBounds(g: nat, f: real)
    requires 1.0 < f < 2.0 && g < I64_LIMIT
    ensures Share(g, f) <= 2 * g
  {
    Product(0, g, 2.0 - f);
    assert g as real * f <= 2.0 * g as real;
    assert 2.0 * g as real == (2 * g) as real;
    CastAtMost(g as real * f, 2 * g);
  }

  /** A fraction from 2 on: one lamport of profit already nets a loss, unless the loss wraps around. */
  lemma TipOfOne(f: real)
    requires 2.0 <= f < (U64_LIMIT - 2) as real
    ensures TipOnly(f).NetProfit(0, 1) < TipOnly(f).NetProfit(0, 0)
         || TipOnly(f).NetProfit(0, 2) < TipOnly(f).NetProfit(0, 1)
  {
    NetOfTipOnly(f, 0);
    NetOfTipOnly(f, 1);
    NetOfTipOnly(f, 2);
    var tip := TipOnOne(f);
    if tip <= I64_LIMIT + 1 {
      WrapI64IsExactIff(1 - tip);
    } else {
      TwiceSaturates(f, tip);
      WrappedLoss(tip);
    }
  }

  lemma TipOnOne(f: real) returns (tip: nat)
    requires 2.0 <= f < (U64_LIMIT - 2) as real
    ensures tip == Share(1, f) && 2 <= tip < U64_LIMIT - 2 && tip as real <= f
  {
    tip := Share(1, f);
    assert 1 as real * f == f;
    FloorIs(f, 2);
    FloorIs(f, f.Floor);
  }

  lemma TwiceSaturates(f: real, tip: nat)
    requires tip as real <= f && I64_LIMIT + 1 < tip
    ensures Share(2, f) == U64_LIMIT - 1
  {
    var v := 2 as real * f;
    assert v >= 2.0 * tip as real == (2 * tip) as real;
    FloorAtLeast(v, U64_LIMIT - 1);
  }

  lemma WrappedLoss(tip: int)
    requires I64_LIMIT + 1 < tip < U64_LIMIT - 2
    ensures WrapI64(1 - tip) == 1 - tip + U64_LIMIT && WrapI64(2 - (U64_LIMIT - 1)) == 3
  {
  }

  /**
    A larger output never nets less, for outputs up to `top`, exactly when the tip
    fraction exceeds 1 by less than a lamport on `top`, or is so large that the
    saturated tip turns negative.
   */
  lemma NetMonotoneIff(fraction: real, top: nat)
    requires 2 <= top < I64_LIMIT - 1
    ensures NetMonotoneUpTo(fraction, top)
       <==> WithinALamport(top, fraction) || (U64_LIMIT - 2) as real <= fraction
  {
    if WithinALamport(top, fraction) || (U64_LIMIT - 2) as real <= fraction {
      forall m: CostModel, input: U64, r1: U64, r2: U64 |
        m.Fits(input) && m.jitoTipFraction == fraction && r1 <= r2 <= top
        ensures m.NetProfit(input, r1) <= m.NetProfit(input, r2)
      {
        MonotoneAt(m, input, r1, r2, top);
      }
    } else {
      NotMonotone(fraction, top);
    }
  }

  lemma MonotoneAt(m: CostModel, input: U64, r1: U64, r2: U64, top: nat)
    requires m.Fits(input) && r1 <= r2 <= top < I64_LIMIT - 1
    requires WithinALamport(top, m.jitoTipFraction) || (U64_LIMIT - 2) as real <= m.jitoTipFraction
    ensures m.NetProfit(input, r1) <= m.NetProfit(input, r2)
  {
    if m.jitoTipFraction <= 1.0 {
      NetProfitMonotone(m, input, r1, r2);
    } else if WithinALamport(top, m.jitoTipFraction) {
      TipsAgree(m, input, r1, top);
      TipsAgree(m, input, r2, top);
      NetProfitMonotone(m.(jitoTipFraction := 1.0), input, r1, r2);
    } else {
      SaturatedIsMonotone(m, input, r1, r2);
    }
  }

  lemma NotMonotone(fraction: real, top: nat)
    requires 2 <= top < I64_LIMIT - 1
    requires !WithinALamport(top, fraction) && fraction < (U64_LIMIT - 2) as real
    ensures !NetMonotoneUpTo(fraction, top)
  {
    var m := TipOnly(fraction);
    assert m.TotalFee() == 0 && m.Fits(0);
    if fraction <= 1.0 {
      Product(0, top, 1.0 - fraction);
      assert false;
    } else if fraction < 2.0 {
      var g := OvertakingTip(fraction, top);
    } else {
      TipOfOne(fraction);
    }
  }
}
