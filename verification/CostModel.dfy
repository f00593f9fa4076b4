/** crates/arb-sim/src/cost_model.rs over exact reals, with the program's integer casts. */
module CostModel {
  import opened MachineInts

  datatype CostModel = CostModel(
    baseFeeLamports: U64,
    priorityFeeLamportsPerTx: U64,
    numTxs: U64,
    executionPenaltyBps: real,
    minJitoTipLamports: U64,
    jitoTipFraction: real)
  {
    function TotalFee(): nat {
      var perTx: nat := baseFeeLamports + priorityFeeLamportsPerTx;
      assert 0 <= perTx * numTxs;
      perTx * numTxs
    }

    function FixedCosts(): int {
      WrapI64(TotalFee())
    }

    function SlippageLamports(rawOutput: U64): U64 {
      Share(rawOutput, executionPenaltyBps / 10_000.0)
    }

    function JitoTipLamports(grossProfit: int): U64 {
      if grossProfit <= 0 then minJitoTipLamports
      else
        var share := Share(grossProfit, jitoTipFraction);
        if share < minJitoTipLamports then minJitoTipLamports else share
    }

    /** Output left after the execution penalty; saturating at zero. */
    function RealisticOutput(rawOutput: U64): (out: U64)
      ensures out <= rawOutput
    {
      var slippage := SlippageLamports(rawOutput);
      if slippage < rawOutput then rawOutput - slippage else 0
    }

    function GrossProfit(inputLamports: U64, rawOutput: U64): int {
      WrapI64(RealisticOutput(rawOutput) - inputLamports)
    }

    function NetProfit(inputLamports: U64, rawOutput: U64): int {
      var gross := GrossProfit(inputLamports, rawOutput);
      WrapI64(gross - FixedCosts() - JitoTipLamports(gross))
    }

    function Compute(inputLamports: U64, rawOutput: U64): ScanEconomics {
      var gross := GrossProfit(inputLamports, rawOutput);
      ScanEconomics(
        inputLamports,
        rawOutput,
        SlippageLamports(rawOutput),
        RealisticOutput(rawOutput),
        gross,
        FixedCosts(),
        JitoTipLamports(gross),
        NetProfit(inputLamports, rawOutput),
        ProfitBps(gross, inputLamports))
    }

    /** Input, fixed costs and minimum tip fit in an i64 together, as a loss. */
    predicate Fits(inputLamports: U64) {
      TotalFee() < I64_LIMIT && inputLamports + TotalFee() + minJitoTipLamports <= I64_LIMIT
    }

    /** What the best output without a gain loses. */
    function SmallestLoss(inputLamports: U64): nat {
      inputLamports - RealisticOutput(inputLamports) + TotalFee() + minJitoTipLamports
    }

    /** No loss of an output of at most the input reads as a profit after it has wrapped around. */
    predicate LossesStayLosses(inputLamports: U64) {
      SmallestLoss(inputLamports) % U64_LIMIT + RealisticOutput(inputLamports) <= I64_LIMIT
    }

    /** Net profit over unbounded integers. */
    function TrueNet(inputLamports: U64, rawOutput: U64): int {
      var gross := RealisticOutput(rawOutput) - inputLamports;
      gross - TotalFee() - JitoTipLamports(gross)
    }
  }

  /** A fraction of an amount, cast to u64. */
  function Share(amount: nat, fraction: real): U64 {
    SaturatingU64(amount as real * fraction)
  }

  function ProfitBps(gross: int, inputLamports: U64): real {
    if 0 < inputLamports then gross as real / inputLamports as real * 10_000.0 else 0.0
  }

  datatype ScanEconomics = ScanEconomics(
    inputLamports: U64,
    rawOutputLamports: U64,
    slippageLamports: U64,
    realisticOutputLamports: U64,
    grossProfitLamports: int,
    fixedCostLamports: int,
    jitoTipLamports: U64,
    netProfitLamports: int,
    profitBps: real)
  {
    /** Input, slippage, fixed costs, tip and net profit add up to the raw output. */
    predicate Conserves() {
      rawOutputLamports == inputLamports + slippageLamports + fixedCostLamports + jitoTipLamports + netProfitLamports
    }
  }

  const DEFAULT: CostModel := CostModel(5_000, 3_000_000, 3, 50.0, 50_000, 0.5)
  const DEFAULT_BREAK_EVEN_GROSS: nat := 18_030_000

  // ----- what the figures of a result are -----

  predicate IsShare(n: U64, amount: int, fraction: real) {
    NearestU64(n, amount as real * fraction)
  }

  predicate IsProduct(n: int, a: int, b: int) {
    n == a * b
  }

  /**
    Slippage and tip are whole fractions, the tip at least the minimum; fixed costs
    are those of all transactions; what is left of the output, less the input, is
    the gross profit, and less all costs the net profit, as i64; profit in basis
    points relates the gross profit to the input.
   */
  ghost predicate Explains(m: CostModel, e: ScanEconomics) {
    && IsShare(e.slippageLamports, e.rawOutputLamports, m.executionPenaltyBps / 10_000.0)
    && (if e.slippageLamports <= e.rawOutputLamports
        then e.realisticOutputLamports + e.slippageLamports == e.rawOutputLamports
        else e.realisticOutputLamports == 0)
    && IsI64Of(e.grossProfitLamports, e.realisticOutputLamports - e.inputLamports)
    && ExplainsTip(m, e.grossProfitLamports, e.jitoTipLamports)
    && ExplainsFixed(m, e.fixedCostLamports)
    && IsI64Of(e.netProfitLamports, e.grossProfitLamports - e.fixedCostLamports - e.jitoTipLamports)
    && ExplainsBps(e.profitBps, e.grossProfitLamports, e.inputLamports)
  }

  ghost predicate ExplainsTip(m: CostModel, gross: int, tip: U64) {
    if gross <= 0 then tip == m.minJitoTipLamports
    else
      exists share: U64 | IsShare(share, gross, m.jitoTipFraction) ::
        m.minJitoTipLamports <= tip && share <= tip && (tip == m.minJitoTipLamports || tip == share)
  }

  ghost predicate ExplainsFixed(m: CostModel, fixed: int) {
    exists total: int | IsProduct(total, m.baseFeeLamports + m.priorityFeeLamportsPerTx, m.numTxs) ::
      IsI64Of(fixed, total)
  }

  predicate ExplainsBps(bps: real, gross: int, inputLamports: int) {
    if inputLamports == 0 then bps == 0.0 else bps * inputLamports as real == gross as real * 10_000.0
  }

  lemma ShareIs(amount: nat, fraction: real)
    ensures IsShare(Share(amount, fraction), amount, fraction)
  {
    CastIsNearest(amount as real * fraction);
  }

  lemma TipIs(m: CostModel, gross: int)
    ensures ExplainsTip(m, gross, m.JitoTipLamports(gross))
  {
    if 0 < gross {
      ShareIs(gross, m.jitoTipFraction);
      assert IsShare(Share(gross, m.jitoTipFraction), gross, m.jitoTipFraction);
    }
  }

  lemma FixedIs(m: CostModel)
    ensures ExplainsFixed(m, m.FixedCosts())
  {
    assert IsProduct(m.TotalFee(), m.baseFeeLamports + m.priorityFeeLamportsPerTx, m.numTxs);
    WrapIsI64(m.TotalFee());
  }

  lemma BpsIs(gross: int, inputLamports: U64)
    ensures ExplainsBps(ProfitBps(gross, inputLamports), gross, inputLamports)
  {
    if 0 < inputLamports {
      var ratio := gross as real / inputLamports as real;
      assert ratio * inputLamports as real == gross as real;
      assert ratio * 10_000.0 * inputLamports as real == ratio * inputLamports as real * 10_000.0;
    }
  }

  /** The same with every figure given on its own. */
  lemma ComputeFields(m: CostModel, inputLamports: U64, rawOutput: U64)
    ensures var e := m.Compute(inputLamports, rawOutput);
            && e.inputLamports == inputLamports && e.rawOutputLamports == rawOutput
            && e.slippageLamports == Share(rawOutput, m.executionPenaltyBps / 10_000.0)
            && e.realisticOutputLamports
               == (if e.slippageLamports < rawOutput then rawOutput - e.slippageLamports else 0)
            && e.grossProfitLamports == WrapI64(e.realisticOutputLamports - inputLamports)
            && e.jitoTipLamports == m.JitoTipLamports(e.grossProfitLamports)
            && e.fixedCostLamports == m.FixedCosts()
            && e.netProfitLamports == WrapI64(e.grossProfitLamports - e.fixedCostLamports - e.jitoTipLamports)
            && e.profitBps == ProfitBps(e.grossProfitLamports, inputLamports)
  {
  }

  /** What `Compute` returns for an input and a raw output. */
  lemma ComputeExplained(m: CostModel, inputLamports: U64, rawOutput: U64)
    ensures var e := m.Compute(inputLamports, rawOutput);
            e.inputLamports == inputLamports && e.rawOutputLamports == rawOutput && Explains(m, e)
  {
    var e := m.Compute(inputLamports, rawOutput);
    ComputeFields(m, inputLamports, rawOutput);
    ShareIs(rawOutput, m.executionPenaltyBps / 10_000.0);
    TipIs(m, e.grossProfitLamports);
    FixedIs(m);
    BpsIs(e.grossProfitLamports, inputLamports);
    WrapIsI64(e.realisticOutputLamports - inputLamports);
    WrapIsI64(e.grossProfitLamports - e.fixedCostLamports - e.jitoTipLamports);
  }

  lemma OneShare(n: U64, k: U64, amount: int, fraction: real)
    requires IsShare(n, amount, fraction) && IsShare(k, amount, fraction)
    ensures n == k
  {
    OneNearest(n, k, amount as real * fraction);
  }

  lemma OneTip(m: CostModel, gross: int, tip: U64)
    requires ExplainsTip(m, gross, tip)
    ensures tip == m.JitoTipLamports(gross)
  {
    if 0 < gross {
      var share: U64 :| IsShare(share, gross, m.jitoTipFraction) && m.minJitoTipLamports <= tip && share <= tip
                        && (tip == m.minJitoTipLamports || tip == share);
      ShareIs(gross, m.jitoTipFraction);
      OneShare(share, Share(gross, m.jitoTipFraction), gross, m.jitoTipFraction);
    }
  }

  lemma OneFixed(m: CostModel, fixed: int)
    requires ExplainsFixed(m, fixed)
    ensures fixed == m.FixedCosts()
  {
    var total: int :| IsProduct(total, m.baseFeeLamports + m.priorityFeeLamportsPerTx, m.numTxs)
                      && IsI64Of(fixed, total);
    WrapIsI64(m.TotalFee());
    OneI64(fixed, m.FixedCosts(), m.TotalFee());
  }

  lemma OneBps(bps: real, gross: int, inputLamports: U64)
    requires ExplainsBps(bps, gross, inputLamports)
    ensures bps == ProfitBps(gross, inputLamports)
  {
    if 0 < inputLamports {
      BpsIs(gross, inputLamports);
      SameFactor(bps, ProfitBps(gross, inputLamports), inputLamports as real);
    }
  }

  lemma SameFactor(x: real, y: real, k: real)
    requires k > 0.0 && x * k == y * k
    ensures x == y
  {
  }

  /** And nothing else is explained: the figures follow from the model, the input and the raw output. */
  lemma ExplainedIff(m: CostModel, e: ScanEconomics)
    ensures Explains(m, e) <==> e == m.Compute(e.inputLamports, e.rawOutputLamports)
  {
    ComputeExplained(m, e.inputLamports, e.rawOutputLamports);
    if Explains(m, e) {
      ComputeFields(m, e.inputLamports, e.rawOutputLamports);
      ShareIs(e.rawOutputLamports, m.executionPenaltyBps / 10_000.0);
      OneShare(e.slippageLamports, Share(e.rawOutputLamports, m.executionPenaltyBps / 10_000.0),
               e.rawOutputLamports, m.executionPenaltyBps / 10_000.0);
      WrapIsI64(e.realisticOutputLamports - e.inputLamports);
      OneI64(e.grossProfitLamports, WrapI64(e.realisticOutputLamports - e.inputLamports),
             e.realisticOutputLamports - e.inputLamports);
      OneTip(m, e.grossProfitLamports, e.jitoTipLamports);
      OneFixed(m, e.fixedCostLamports);
      WrapIsI64(e.grossProfitLamports - e.fixedCostLamports - e.jitoTipLamports);
      OneI64(e.netProfitLamports, WrapI64(e.grossProfitLamports - e.fixedCostLamports - e.jitoTipLamports),
             e.grossProfitLamports - e.fixedCostLamports - e.jitoTipLamports);
      OneBps(e.profitBps, e.grossProfitLamports, e.inputLamports);
    }
  }

  // ----- ranges -----

  lemma ScaledDown(v: real, p: real)
    requires 0.0 <= v && p <= 1.0
    ensures v * p <= v
  {
    assert v * (1.0 - p) >= 0.0;
  }

  lemma ScaledUp(v: real, p: real)
    requires 0.0 <= v && 1.0 <= p
    ensures v <= v * p
  {
    assert v * (p - 1.0) >= 0.0;
  }

  lemma ShareAtMost(amount: nat, fraction: real)
    requires fraction <= 1.0
    ensures Share(amount, fraction) <= amount
  {
    PartAtMost(amount as real, fraction, amount);
  }

  lemma PartAtMost(whole: real, fraction: real, n: nat)
    requires 0.0 <= whole <= n as real && fraction <= 1.0
    ensures SaturatingU64(whole * fraction) <= n
  {
    var part := whole * fraction;
    ScaledDown(whole, fraction);
    assert part <= whole;
    CastAtMost(part, n);
  }

  lemma TipBound(m: CostModel, gross: int)
    requires m.jitoTipFraction <= 1.0
    ensures m.minJitoTipLamports <= m.JitoTipLamports(gross)
    ensures m.JitoTipLamports(gross) <= if m.minJitoTipLamports < gross then gross else m.minJitoTipLamports
  {
    if 0 < gross {
      ShareAtMost(gross, m.jitoTipFraction);
    }
  }

  lemma FixedCostsExact(m: CostModel)
    requires m.TotalFee() < I64_LIMIT
    ensures m.FixedCosts() == m.TotalFee()
  {
    WrapI64IsExactIff(m.TotalFee());
  }

  lemma GrossExact(m: CostModel, inputLamports: U64, rawOutput: U64)
    requires InI64(m.RealisticOutput(rawOutput) - inputLamports)
    ensures m.GrossProfit(inputLamports, rawOutput) == m.RealisticOutput(rawOutput) - inputLamports
  {
    WrapI64IsExactIff(m.RealisticOutput(rawOutput) - inputLamports);
  }

  /** When the gross profit fits in an i64, the net profit is exact exactly when it fits too. */
  lemma NetIsExactIff(m: CostModel, inputLamports: U64, rawOutput: U64)
    requires InI64(m.RealisticOutput(rawOutput) - inputLamports)
    ensures m.NetProfit(inputLamports, rawOutput) == m.TrueNet(inputLamports, rawOutput)
       <==> InI64(m.TrueNet(inputLamports, rawOutput))
  {
    var gross := m.RealisticOutput(rawOutput) - inputLamports;
    GrossExact(m, inputLamports, rawOutput);
    NetOfGross(m, inputLamports, rawOutput, gross);
    DifferenceIsExactIff(gross, m.TotalFee(), m.JitoTipLamports(gross),
                         m.NetProfit(inputLamports, rawOutput), m.TrueNet(inputLamports, rawOutput));
  }

  lemma NetOfGross(m: CostModel, inputLamports: U64, rawOutput: U64, gross: int)
    requires gross == m.RealisticOutput(rawOutput) - inputLamports == m.GrossProfit(inputLamports, rawOutput)
    ensures m.NetProfit(inputLamports, rawOutput) == WrapI64(gross - WrapI64(m.TotalFee()) - m.JitoTipLamports(gross))
    ensures m.TrueNet(inputLamports, rawOutput) == gross - m.TotalFee() - m.JitoTipLamports(gross)
  {
  }

  lemma DifferenceIsExactIff(gross: int, fee: int, tip: int, net: int, trueNet: int)
    requires net == WrapI64(gross - WrapI64(fee) - tip) && trueNet == gross - fee - tip
    ensures net == trueNet <==> InI64(trueNet)
  {
    WrapI64Less(fee, gross - tip);
    WrapI64IsExactIff(trueNet);
  }

  /** Of a model that fits, every cast and sum is exact. */
  lemma NothingWraps(m: CostModel, inputLamports: U64, rawOutput: U64)
    requires m.Fits(inputLamports) && m.jitoTipFraction <= 1.0
    requires rawOutput < I64_LIMIT
    ensures var gross := m.RealisticOutput(rawOutput) - inputLamports;
            && m.GrossProfit(inputLamports, rawOutput) == gross
            && m.NetProfit(inputLamports, rawOutput) == gross - m.FixedCosts() - m.JitoTipLamports(gross)
            && m.FixedCosts() == m.TotalFee()
            && m.minJitoTipLamports <= m.JitoTipLamports(gross) <= I64_LIMIT
  {
    FixedCostsExact(m);
    GrossExact(m, inputLamports, rawOutput);
    TipBound(m, m.RealisticOutput(rawOutput) - inputLamports);
    NetIsExactIff(m, inputLamports, rawOutput);
  }

  /** Fitting is exactly what it takes for the net profit to be exact whatever the output. */
  lemma AlwaysExactIffFits(m: CostModel, inputLamports: U64)
    requires m.jitoTipFraction <= 1.0 && inputLamports <= I64_LIMIT && m.TotalFee() < I64_LIMIT
    ensures (forall raw: U64 | raw < I64_LIMIT :: m.NetProfit(inputLamports, raw) == m.TrueNet(inputLamports, raw))
       <==> m.Fits(inputLamports)
  {
    if m.Fits(inputLamports) {
      forall raw: U64 | raw < I64_LIMIT
        ensures m.NetProfit(inputLamports, raw) == m.TrueNet(inputLamports, raw)
      {
        NothingWraps(m, inputLamports, raw);
      }
    } else {
      NetIsExactIff(m, inputLamports, 0);
      assert m.TrueNet(inputLamports, 0) == 0 - inputLamports - m.TotalFee() - m.minJitoTipLamports;
    }
  }

  // ----- conservation -----

  /**
    Every lamport of raw output is accounted for exactly when the slippage does
    not exceed the output (`saturating_sub` loses the rest) and what is left after
    all costs fits in an i64.  This holds of every model and all amounts.
   */
  lemma ConservationIff(m: CostModel, inputLamports: U64, rawOutput: U64)
    ensures var e := m.Compute(inputLamports, rawOutput);
            e.Conserves() <==>
              && e.slippageLamports <= rawOutput
              && InI64(rawOutput - e.slippageLamports - inputLamports - e.fixedCostLamports - e.jitoTipLamports)
  {
    ComputeKeepsBooks(m, inputLamports, rawOutput);
    BooksBalance(m.Compute(inputLamports, rawOutput));
  }

  /** How the figures of a result hang together. */
  predicate KeepsBooks(e: ScanEconomics) {
    && e.realisticOutputLamports
       == (if e.slippageLamports < e.rawOutputLamports then e.rawOutputLamports - e.slippageLamports else 0)
    && e.grossProfitLamports == WrapI64(e.realisticOutputLamports - e.inputLamports)
    && e.netProfitLamports == WrapI64(e.grossProfitLamports - e.fixedCostLamports - e.jitoTipLamports)
  }

  lemma ComputeKeepsBooks(m: CostModel, inputLamports: U64, rawOutput: U64)
    ensures KeepsBooks(m.Compute(inputLamports, rawOutput))
  {
  }

  lemma BooksBalance(e: ScanEconomics)
    requires KeepsBooks(e)
    ensures e.Conserves() <==>
              && e.slippageLamports <= e.rawOutputLamports
              && InI64(e.rawOutputLamports - e.slippageLamports - e.inputLamports
                       - e.fixedCostLamports - e.jitoTipLamports)
  {
    BooksBalanceIff(e.rawOutputLamports, e.slippageLamports, e.inputLamports, e.fixedCostLamports, e.jitoTipLamports,
                    e.realisticOutputLamports, e.grossProfitLamports, e.netProfitLamports);
  }

  lemma BooksBalanceIff(
    raw: U64, slippage: U64, input: U64, fixed: int, tip: int, realistic: int, gross: int, net: int)
    requires realistic == if slippage < raw then raw - slippage else 0
    requires gross == WrapI64(realistic - input) && net == WrapI64(gross - fixed - tip)
    ensures raw == input + slippage + fixed + tip + net
       <==> slippage <= raw && InI64(raw - slippage - input - fixed - tip)
  {
    WrapI64Again(realistic - input, 0 - fixed - tip);
    SumIsExactIff(raw, slippage, input, fixed + tip, realistic, net);
  }

  lemma SumIsExactIff(raw: U64, slippage: U64, input: int, costs: int, realistic: int, net: int)
    requires realistic == if slippage < raw then raw - slippage else 0
    requires net == WrapI64(realistic - input - costs)
    ensures raw == input + slippage + costs + net <==> slippage <= raw && InI64(raw - slippage - input - costs)
  {
    var k := WrapI64Shift(realistic - input - costs);
    WrapI64IsExactIff(realistic - input - costs);
    if raw < slippage && k != 0 {
      assert raw - slippage != k * U64_LIMIT;
    }
  }

  /** A fitting model with a penalty within the output conserves. */
  lemma FittingModelConserves(m: CostModel, inputLamports: U64, rawOutput: U64)
    requires m.Fits(inputLamports) && m.jitoTipFraction <= 1.0 && m.executionPenaltyBps <= 10_000.0
    requires rawOutput < I64_LIMIT
    ensures m.Compute(inputLamports, rawOutput).Conserves()
  {
    NothingWraps(m, inputLamports, rawOutput);
    PenaltyWithinOutput(m, rawOutput);
  }

  /** Any penalty of at most the whole output qualifies. */
  lemma PenaltyWithinOutput(m: CostModel, rawOutput: U64)
    requires m.executionPenaltyBps <= 10_000.0
    ensures m.SlippageLamports(rawOutput) <= rawOutput
  {
    ShareAtMost(rawOutput, m.executionPenaltyBps / 10_000.0);
  }

  /** A penalty of twice the output: one lamport comes out and two are booked as slippage. */
  lemma ConservationCanFail()
    ensures !CostModel(0, 0, 0, 20_000.0, 0, 0.5).Compute(0, 1).Conserves()
  {
    var m := CostModel(0, 0, 0, 20_000.0, 0, 0.5);
    FloorIs(2.0, 2);
    assert m.SlippageLamports(1) == 2;
    ConservationIff(m, 0, 1);
  }

  // ----- monotonicity -----

  lemma StepsOfSlope(p: real, a: nat, b: nat)
    requires a <= b && p <= 1.0
    ensures b as real * p <= a as real * p + (b - a) as real
  {
    Spread(a as real, (b - a) as real, p);
    ScaledDown((b - a) as real, p);
  }

  lemma Spread(a: real, d: real, p: real)
    ensures (a + d) * p == a * p + d * p
  {
  }

  /** Adding d to an amount adds at most d to a share of at most the whole. */
  lemma ShareSteps(p: real, a: nat, b: nat)
    requires a <= b < I64_LIMIT && p <= 1.0
    ensures Share(b, p) <= Share(a, p) + (b - a)
  {
    StepsOfSlope(p, a, b);
    ShareAtMost(a, p);
    ShareAtMost(b, p);
    CastSteps(a as real * p, b as real * p, b - a);
  }

  lemma CastSteps(v: real, w: real, d: nat)
    requires w <= v + d as real && SaturatingU64(v) + d < U64_LIMIT - 1
    ensures SaturatingU64(w) <= SaturatingU64(v) + d
  {
    CastOrder(v, SaturatingU64(v));
    CastOrder(w, SaturatingU64(v) + d);
  }

  lemma RealisticOutputMonotone(m: CostModel, r1: U64, r2: U64)
    requires r1 <= r2 < I64_LIMIT
    ensures m.RealisticOutput(r1) <= m.RealisticOutput(r2)
  {
    var p := m.executionPenaltyBps / 10_000.0;
    if p <= 1.0 {
      ShareSteps(p, r1, r2);
    } else {
      WholePenalty(r1, p);
    }
  }

  /** A penalty above the whole output leaves nothing. */
  lemma WholePenalty(amount: nat, p: real)
    requires amount < I64_LIMIT && 1.0 < p
    ensures amount <= Share(amount, p)
  {
    PartAtLeast(amount as real, p, amount);
  }

  lemma PartAtLeast(whole: real, p: real, n: nat)
    requires 0.0 <= n as real <= whole && 1.0 < p && n < I64_LIMIT
    ensures n <= SaturatingU64(whole * p)
  {
    ScaledUp(whole, p);
    CastOrder(whole * p, n);
  }

  lemma KeptProfitMonotone(m: CostModel, g1: int, g2: int)
    requires g1 <= g2 < I64_LIMIT && m.jitoTipFraction <= 1.0
    ensures g1 - m.JitoTipLamports(g1) <= g2 - m.JitoTipLamports(g2)
  {
    if 0 < g1 {
      ShareSteps(m.jitoTipFraction, g1, g2);
    } else if 0 < g2 {
      ShareAtMost(g2, m.jitoTipFraction);
    }
  }

  /** A larger raw output never nets less. */
  lemma NetIsMonotone(m: CostModel, inputLamports: U64, r1: U64, r2: U64)
    requires m.Fits(inputLamports) && m.jitoTipFraction <= 1.0 && r1 <= r2 < I64_LIMIT
    ensures m.Compute(inputLamports, r1).netProfitLamports <= m.Compute(inputLamports, r2).netProfitLamports
  {
    NetProfitMonotone(m, inputLamports, r1, r2);
  }

  lemma NetProfitMonotone(m: CostModel, inputLamports: U64, r1: U64, r2: U64)
    requires m.Fits(inputLamports) && m.jitoTipFraction <= 1.0 && r1 <= r2 < I64_LIMIT
    ensures m.NetProfit(inputLamports, r1) <= m.NetProfit(inputLamports, r2)
  {
    NothingWraps(m, inputLamports, r1);
    NothingWraps(m, inputLamports, r2);
    RealisticOutputMonotone(m, r1, r2);
    KeptProfitMonotone(m, m.RealisticOutput(r1) - inputLamports, m.RealisticOutput(r2) - inputLamports);
  }

  // ----- losses -----

  lemma ShareGrows(amount: nat, p: real)
    ensures Share(amount, p) <= Share(amount + 1, p)
  {
    var v := amount as real * p;
    assert (amount + 1) as real * p == v + p;
    if 0.0 <= p {
      CastMonotone(v, v + p);
    } else {
      NotPositive(amount as real, p);
    }
  }

  lemma NotPositive(v: real, p: real)
    requires 0.0 <= v && p <= 0.0
    ensures v * p <= 0.0
  {
    assert v * (0.0 - p) >= 0.0;
  }

  /** One more lamport of raw output leaves at most one more. */
  lemma RealisticStep(m: CostModel, r: U64)
    requires r + 1 < U64_LIMIT
    ensures m.RealisticOutput(r + 1) <= m.RealisticOutput(r) + 1
  {
    ShareGrows(r, m.executionPenaltyBps / 10_000.0);
  }

  /** Every realistic output up to that of `top` is that of some raw output up to `top`. */
  lemma {:induction false} RealisticHits(m: CostModel, top: U64, target: nat) returns (raw: U64)
    requires target <= m.RealisticOutput(top)
    ensures raw <= top && m.RealisticOutput(raw) == target
    decreases top
  {
    if m.RealisticOutput(top) == target {
      raw := top;
    } else {
      RealisticStep(m, top - 1);
      raw := RealisticHits(m, top - 1, target);
    }
  }

  /** The net profit of an output of at most the input: the loss, wrapped around. */
  lemma NetOfLoss(m: CostModel, inputLamports: U64, rawOutput: U64)
    requires inputLamports <= I64_LIMIT && rawOutput <= inputLamports
    ensures m.NetProfit(inputLamports, rawOutput)
         == WrapI64(0 - (inputLamports - m.RealisticOutput(rawOutput) + m.TotalFee() + m.minJitoTipLamports))
  {
    GrossExact(m, inputLamports, rawOutput);
    WrapI64Less(m.TotalFee(), m.RealisticOutput(rawOutput) - inputLamports - m.minJitoTipLamports);
  }

  lemma RealisticAtMost(m: CostModel, inputLamports: U64, rawOutput: U64)
    requires inputLamports <= I64_LIMIT && rawOutput <= inputLamports
    ensures m.RealisticOutput(rawOutput) <= m.RealisticOutput(inputLamports)
  {
    if inputLamports < I64_LIMIT {
      RealisticOutputMonotone(m, rawOutput, inputLamports);
    } else if rawOutput < inputLamports {
      RealisticOutputMonotone(m, rawOutput, inputLamports - 1);
      RealisticTop(m);
    }
  }

  lemma RealisticTop(m: CostModel)
    ensures m.RealisticOutput(I64_LIMIT - 1) <= m.RealisticOutput(I64_LIMIT)
  {
    var p := m.executionPenaltyBps / 10_000.0;
    if p <= 1.0 {
      StepsOfSlope(p, I64_LIMIT - 1, I64_LIMIT);
      ShareAtMost(I64_LIMIT - 1, p);
      CastSteps((I64_LIMIT - 1) as real * p, I64_LIMIT as real * p, 1);
    } else {
      WholePenalty(I64_LIMIT - 1, p);
    }
  }

  /** No gross gain, no net gain, whatever the penalty and the tip fraction. */
  lemma NoGainWithoutOutput(m: CostModel, inputLamports: U64, rawOutput: U64)
    requires inputLamports <= I64_LIMIT && m.LossesStayLosses(inputLamports) && rawOutput <= inputLamports
    ensures m.Compute(inputLamports, rawOutput).netProfitLamports <= 0
  {
    RealisticAtMost(m, inputLamports, rawOutput);
    NetOfLoss(m, inputLamports, rawOutput);
    var more := m.RealisticOutput(inputLamports) - m.RealisticOutput(rawOutput);
    ModPlus(m.SmallestLoss(inputLamports), more);
    LossWraps(m.SmallestLoss(inputLamports) + more);
  }

  /** An output of at most the input never nets a profit exactly when its losses do not wrap around to one. */
  lemma NoGainIff(m: CostModel, inputLamports: U64)
    requires inputLamports <= I64_LIMIT
    ensures (forall raw: U64 | raw <= inputLamports :: m.NetProfit(inputLamports, raw) <= 0)
       <==> m.LossesStayLosses(inputLamports)
  {
    if m.LossesStayLosses(inputLamports) {
      forall raw: U64 | raw <= inputLamports
        ensures m.NetProfit(inputLamports, raw) <= 0
      {
        NoGainWithoutOutput(m, inputLamports, raw);
      }
    } else {
      var raw := WrappedLoss(m, inputLamports);
    }
  }

  lemma WrappedLoss(m: CostModel, inputLamports: U64) returns (raw: U64)
    requires inputLamports <= I64_LIMIT && !m.LossesStayLosses(inputLamports)
    ensures raw <= inputLamports && 0 < m.NetProfit(inputLamports, raw)
  {
    var best, left := m.RealisticOutput(inputLamports), m.SmallestLoss(inputLamports) % U64_LIMIT;
    var more := if I64_LIMIT < left then 0 else I64_LIMIT + 1 - left;
    raw := RealisticHits(m, inputLamports, best - more);
    NetOfLoss(m, inputLamports, raw);
    LossWrapsToProfit(m.SmallestLoss(inputLamports), more);
  }

  lemma LossWrapsToProfit(smallest: nat, more: nat)
    requires I64_LIMIT < smallest % U64_LIMIT + more < U64_LIMIT
    ensures 0 < WrapI64(0 - (smallest + more))
  {
    ModPlus(smallest, more);
    LossWraps(smallest + more);
  }

  lemma FittingLossesStayLosses(m: CostModel, inputLamports: U64)
    requires m.Fits(inputLamports)
    ensures inputLamports <= I64_LIMIT && m.LossesStayLosses(inputLamports)
  {
  }

  /** A minimum tip above 2^63 lamports turns the loss of everything into a profit. */
  lemma LossReadsAsProfit()
    ensures 0 < CostModel(0, 0, 0, 0.0, 9_223_372_036_854_775_809, 0.5).NetProfit(0, 0)
  {
    var m := CostModel(0, 0, 0, 0.0, 9_223_372_036_854_775_809, 0.5);
    assert m.TotalFee() == 0;
    NetOfLoss(m, 0, 0);
    LossWraps(9_223_372_036_854_775_809);
  }

  // ----- break-even -----

  /** With half of the profit tipped, profit needs the larger of two sums of fixed costs. */
  lemma HalfTipBreakEvenIff(m: CostModel, inputLamports: U64, rawOutput: U64)
    requires m.Fits(inputLamports) && m.jitoTipFraction == 0.5
    requires rawOutput < I64_LIMIT
    ensures var e := m.Compute(inputLamports, rawOutput);
            (0 < e.netProfitLamports <==> BreakEven(e.fixedCostLamports, m.minJitoTipLamports) < e.grossProfitLamports)
  {
    NothingWraps(m, inputLamports, rawOutput);
    var gross := m.GrossProfit(inputLamports, rawOutput);
    if 0 < gross {
      HalfShare(gross);
    }
  }

  function BreakEven(fixed: int, minTip: int): int {
    fixed + if fixed < minTip then minTip else fixed
  }

  lemma HalfShare(amount: nat)
    requires amount < I64_LIMIT
    ensures Share(amount, 0.5) == amount / 2
  {
    var half := amount / 2;
    assert half as real <= amount as real * 0.5 < half as real + 1.0;
    CastOrder(amount as real * 0.5, half);
  }

  /** The raw output from which the default model nets a profit. */
  function DefaultThreshold(inputLamports: nat): nat {
    200 * (inputLamports + DEFAULT_BREAK_EVEN_GROSS) / 199 + 1
  }

  lemma DefaultSlippage(rawOutput: U64)
    requires rawOutput < I64_LIMIT
    ensures DEFAULT.SlippageLamports(rawOutput) == rawOutput * 50 / 10_000
  {
    var part := rawOutput * 50 / 10_000;
    assert 50.0 / 10_000.0 == 0.005;
    assert part as real <= rawOutput as real * 0.005 < part as real + 1.0;
    CastOrder(rawOutput as real * 0.005, part);
  }

  /** Profitability under the default model is one threshold on the raw output. */
  lemma DefaultProfitIff(inputLamports: U64, rawOutput: U64)
    requires DEFAULT.Fits(inputLamports) && rawOutput < I64_LIMIT
    ensures 0 < DEFAULT.Compute(inputLamports, rawOutput).netProfitLamports
       <==> DefaultThreshold(inputLamports) <= rawOutput
  {
    HalfTipBreakEvenIff(DEFAULT, inputLamports, rawOutput);
    NothingWraps(DEFAULT, inputLamports, rawOutput);
    DefaultSlippage(rawOutput);
  }

  /** On 1 SOL the threshold is an edge of 231 bps of raw output; 140 bps lose money. */
  lemma DocumentedEdgeIsNotEnough()
    ensures DEFAULT.Compute(1_000_000_000, 1_014_000_000).netProfitLamports <= 0
    ensures DefaultThreshold(1_000_000_000) == 1_023_145_729
  {
    DefaultProfitIff(1_000_000_000, 1_014_000_000);
  }
}
