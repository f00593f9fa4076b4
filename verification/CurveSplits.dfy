/**
  Splitting a PumpFun trade into pieces.  The bonding curve's 1% fee is rounded down
  on every trade, so pieces can lose less to it than the whole does; the curve itself,
  whose outputs are rounded down, never favours pieces.
 */
module CurveSplits {
  import opened MachineInts
  import opened Amm
  import opened AmmMachine
  import opened PoolRuns
  import opened MachineSplits

  function Curve(sol: U64, token: U64): PumpFunState {
    PumpFunState(token, sol, 0, 0, false)
  }

  /** Tokens bought when `amounts` lamports are spent one after the other; the fee stays off the curve. */
  function BuyInTurn(sol: U64, token: U64, amounts: seq<nat>): nat
    requires sol + Sum(amounts) < U64_LIMIT
    decreases |amounts|
  {
    if amounts == [] then 0
    else
      var out := PumpFunBuyOutput(Curve(sol, token), amounts[0]);
      PaysWithinReserve(sol, token, PumpFunNet(amounts[0]), 0);
      out + BuyInTurn(sol + PumpFunNet(amounts[0]), token - out, amounts[1..])
  }

  /** Lamports received when `amounts` tokens are sold one after the other; the fee leaves the curve too. */
  function SellInTurn(sol: U64, token: U64, amounts: seq<nat>): nat
    requires token + Sum(amounts) < U64_LIMIT
    decreases |amounts|
  {
    if amounts == [] then 0
    else
      var gross := ConstantProductSwap(token, sol, amounts[0], 0);
      PaysWithinReserve(token, sol, amounts[0], 0);
      PumpFunSellOutput(Curve(sol, token), amounts[0]) + SellInTurn(sol - gross, token + amounts[0], amounts[1..])
  }

  ghost predicate BuysNeverSplit(sol: U64, token: U64, total: nat)
    requires sol + total < U64_LIMIT
  {
    forall amounts: seq<nat> | Sum(amounts) == total ::
      BuyInTurn(sol, token, amounts) <= PumpFunBuyOutput(Curve(sol, token), total)
  }

  ghost predicate SellsNeverSplit(sol: U64, token: U64, total: nat)
    requires token + total < U64_LIMIT
  {
    forall amounts: seq<nat> | Sum(amounts) == total ::
      SellInTurn(sol, token, amounts) <= PumpFunSellOutput(Curve(sol, token), total)
  }

  // ----- the curve without its fee -----

  /** A payout keeps the product of the reserves exactly when it is at most the output. */
  lemma FeelessIff(x: nat, y: nat, a: nat, p: int)
    requires 0 < x && 0 < y
    ensures p <= ExactSwap(x, y, a, 0) <==> x * y <= (x + a) * (y - p)
  {
    SwapIsLargestPayout(x, y, a, 0, p);
    assert x * BPS * y == BPS * (x * y);
    assert x * BPS + a * BPS == BPS * (x + a);
    assert BPS * (x + a) * (y - p) == BPS * ((x + a) * (y - p));
  }

  lemma OutputGrows(x: nat, y: nat, a: nat, b: nat)
    requires 0 < x && 0 < y && a <= b
    ensures ExactSwap(x, y, a, 0) <= ExactSwap(x, y, b, 0)
  {
    var p := ExactSwap(x, y, a, 0);
    SwapBound(x, y, a, 0);
    FeelessIff(x, y, a, p);
    FeelessIff(x, y, b, p);
    MulMonotone(x + a, x + b, y - p);
  }

  // ----- buying: pieces lose at most the fee less -----

  function Nets(amounts: seq<nat>): seq<nat> {
    if amounts == [] then [] else [PumpFunNet(amounts[0])] + Nets(amounts[1..])
  }

  lemma {:induction false} NetsAtMost(amounts: seq<nat>)
    ensures Sum(Nets(amounts)) <= Sum(amounts)
    decreases |amounts|
  {
    if amounts != [] {
      NetsAtMost(amounts[1..]);
      assert Nets(amounts)[1..] == Nets(amounts[1..]);
    }
  }

  lemma BuyIsExact(sol: U64, token: U64, a: U64)
    requires a * BPS * token < U128_LIMIT
    ensures PumpFunBuyOutput(Curve(sol, token), a) == ExactSwap(sol, token, PumpFunNet(a), 0)
  {
    ProductShrinks(PumpFunNet(a), a, BPS, token, token);
    MachineSwapIsExactIff(sol, token, PumpFunNet(a), 0);
  }

  /** Buying in turn is swapping the amounts after fees in turn. */
  lemma {:induction false} BuyIsNetSwap(sol: U64, token: U64, amounts: seq<nat>)
    requires sol + Sum(amounts) < U64_LIMIT && Sum(amounts) * BPS * token < U128_LIMIT
    ensures BuyInTurn(sol, token, amounts) == SwapInTurn(sol, token, Nets(amounts), 0)
    decreases |amounts|
  {
    if amounts != [] {
      var net := PumpFunNet(amounts[0]);
      ProductShrinks(amounts[0], Sum(amounts), BPS, token, token);
      BuyIsExact(sol, token, amounts[0]);
      var out := ExactSwap(sol, token, net, 0);
      SwapBound(sol, token, net, 0);
      ProductShrinks(Sum(amounts[1..]), Sum(amounts), BPS, token - out, token);
      BuyIsNetSwap(sol + net, token - out, amounts[1..]);
      assert Nets(amounts)[1..] == Nets(amounts[1..]);
    }
  }

  /** No split buys more than the whole amount would without a fee. */
  lemma PiecesBuyAtMostFeeless(sol: U64, token: U64, amounts: seq<nat>)
    requires 0 < sol && sol + Sum(amounts) < U64_LIMIT && Sum(amounts) * BPS * token < U128_LIMIT
    ensures BuyInTurn(sol, token, amounts) <= ExactSwap(sol, token, Sum(amounts), 0)
  {
    BuyIsNetSwap(sol, token, amounts);
    if 0 < token {
      PiecesNeverBeatTheWhole(sol, token, Nets(amounts), 0);
      NetsAtMost(amounts);
      OutputGrows(sol, token, Sum(Nets(amounts)), Sum(amounts));
    } else {
      NothingToPay(sol, token, Nets(amounts), 0);
    }
  }

  /** Where the lamports of the fee would buy nothing, no split helps. */
  lemma FeeBuysNothing(sol: U64, token: U64, total: nat)
    requires 0 < sol && sol + total < U64_LIMIT && total * BPS * token < U128_LIMIT
    requires ExactSwap(sol, token, total, 0) == ExactSwap(sol, token, PumpFunNet(total), 0)
    ensures BuysNeverSplit(sol, token, total)
  {
    forall amounts: seq<nat> | Sum(amounts) == total
      ensures BuyInTurn(sol, token, amounts) <= PumpFunBuyOutput(Curve(sol, token), total)
    {
      PiecesBuyAtMostFeeless(sol, token, amounts);
      BuyIsExact(sol, token, total);
    }
  }

  lemma SmallBuysNeverSplit(sol: U64, token: U64, total: nat)
    requires 0 < sol && sol + total < U64_LIMIT && total < 100
    ensures BuysNeverSplit(sol, token, total)
  {
    ProductShrinks(total, 99, BPS, token, U64_LIMIT);
    FeeBuysNothing(sol, token, total);
  }

  // ----- buying: saving one lamport of the fee -----

  /** What a swap leaves of the reserve y, rounded up. */
  lemma Left(x: nat, y: nat, a: nat, left: nat)
    requires 0 < x && 0 < y && left == y - ExactSwap(x, y, a, 0)
    ensures x * y <= left * (x + a) < x * y + (x + a)
  {
    var p := ExactSwap(x, y, a, 0);
    FeelessIff(x, y, a, p);
    FeelessIff(x, y, a, p + 1);
    Distribute(x + a, left, -1);
  }

  /** Three roundings cost less than the one lamport buys, while the token reserve stays three times as large. */
  lemma ThreeRoundings(
    xy: nat, x1: nat, x2: nat, x3: nat, y1: nat, y2: nat, y3: nat, whole: nat)
    requires x1 <= x2 <= x3 && 1 <= x3
    requires y1 * x1 < xy + x1 && y2 * x2 < y1 * x1 + x2 && y3 * x3 < y2 * x2 + x3
    requires xy <= whole * (x3 - 1) && 3 * x3 <= whole
    ensures y3 < whole
  {
    if whole <= y3 {
      MulMonotone(whole, y3, x3);
      Distribute(whole, x3 - 1, 1);
    }
  }

  lemma BuyHead(sol: U64, token: U64, amounts: seq<nat>, out: nat)
    requires amounts != [] && sol + Sum(amounts) < U64_LIMIT
    requires out == PumpFunBuyOutput(Curve(sol, token), amounts[0]) <= token
    ensures BuyInTurn(sol, token, amounts)
         == out + BuyInTurn(sol + PumpFunNet(amounts[0]), token - out, amounts[1..])
  {
  }

  lemma SumOfThree(amounts: seq<nat>)
    requires |amounts| == 3
    ensures Sum(amounts) == amounts[0] + amounts[1] + amounts[2]
    ensures Sum(amounts[1..]) == amounts[1] + amounts[2] && Sum(amounts[1..][1..]) == amounts[2]
  {
    var two, one := amounts[1..], amounts[1..][1..];
    assert one[1..] == [];
    assert Sum(one) == one[0] + Sum(one[1..]);
    assert Sum(two) == two[0] + Sum(one);
  }

  lemma ThreeInTurn(sol: U64, token: U64, amounts: seq<nat>, o1: nat, o2: nat, o3: nat)
    requires |amounts| == 3 && sol + amounts[0] + amounts[1] + amounts[2] < U64_LIMIT && o1 + o2 + o3 <= token
    requires o1 == PumpFunBuyOutput(Curve(sol, token), amounts[0])
    requires o2 == PumpFunBuyOutput(Curve(sol + PumpFunNet(amounts[0]), token - o1), amounts[1])
    requires o3 == PumpFunBuyOutput(
               Curve(sol + PumpFunNet(amounts[0]) + PumpFunNet(amounts[1]), token - o1 - o2), amounts[2])
    ensures Sum(amounts) == amounts[0] + amounts[1] + amounts[2] && BuyInTurn(sol, token, amounts) == o1 + o2 + o3
  {
    SumOfThree(amounts);
    var sol1, sol2 := sol + PumpFunNet(amounts[0]), sol + PumpFunNet(amounts[0]) + PumpFunNet(amounts[1]);
    BuyHead(sol, token, amounts, o1);
    BuyHead(sol1, token - o1, amounts[1..], o2);
    BuyHead(sol2, token - o1 - o2, amounts[1..][1..], o3);
    assert amounts[1..][1..][1..] == [];
  }

  /** A trade of n lamports after fees against y tokens does not wrap around. */
  predicate NetFits(n: nat, y: nat) {
    n * BPS * y < U128_LIMIT
  }

  /** One piece of a fitting trade, and what it leaves. */
  lemma PieceBuys(sol: U64, token: U64, a: U64, n: nat) returns (out: nat)
    requires 0 < sol && 0 < token && PumpFunNet(a) <= n && NetFits(n, token)
    ensures out == PumpFunBuyOutput(Curve(sol, token), a) < token && NetFits(n, token - out)
    ensures (token - out) * (sol + PumpFunNet(a)) < sol * token + (sol + PumpFunNet(a))
  {
    var net := PumpFunNet(a);
    ProductShrinks(net, n, BPS, token, token);
    MachineSwapIsExactIff(sol, token, net, 0);
    out := ExactSwap(sol, token, net, 0);
    WhatIsLeft(sol, token, net, out, n);
  }

  lemma WhatIsLeft(sol: nat, token: nat, net: nat, out: nat, n: nat)
    requires 0 < sol && 0 < token && out == ExactSwap(sol, token, net, 0) && NetFits(n, token)
    ensures out < token && NetFits(n, token - out)
    ensures (token - out) * (sol + net) < sol * token + (sol + net)
  {
    SwapBound(sol, token, net, 0);
    Left(sol, token, net, token - out);
    ProductShrinks(n, n, BPS, token - out, token);
  }

  /** The pieces 99, 1 and c, and what they leave. */
  lemma BuyThree(sol: U64, token: U64, c: nat, n: nat) returns (y1: nat, y2: nat, y3: nat)
    requires 0 < sol && 0 < token && sol + 100 + c < U64_LIMIT && 99 <= n && PumpFunNet(c) <= n && NetFits(n, token)
    ensures y3 <= token && Sum([99, 1, c]) == 100 + c && BuyInTurn(sol, token, [99, 1, c]) == token - y3
    ensures y1 * (sol + 99) < sol * token + (sol + 99)
    ensures y2 * (sol + 100) < (sol + 99) * y1 + (sol + 100)
    ensures y3 * (sol + 100 + PumpFunNet(c)) < (sol + 100) * y2 + (sol + 100 + PumpFunNet(c))
  {
    var o1 := PieceBuys(sol, token, 99, n);
    y1 := token - o1;
    var o2 := PieceBuys(sol + 99, y1, 1, n);
    y2 := y1 - o2;
    var o3 := PieceBuys(sol + 100, y2, c, n);
    y3 := y2 - o3;
    ThreeInTurn(sol, token, [99, 1, c], o1, o2, o3);
  }

  lemma ThreePieces(sol: U64, token: U64, total: nat, n: nat)
    requires 0 < sol && 100 <= total && sol + total < U64_LIMIT
    requires n == PumpFunNet(total) && PumpFunNet(total - 100) == n - 99 && NetFits(n, token)
    requires 3 * (sol + n + 1) <= token - ExactSwap(sol, token, n, 0)
    ensures Sum([99, 1, total - 100]) == total
    ensures ExactSwap(sol, token, n, 0) < BuyInTurn(sol, token, [99, 1, total - 100])
  {
    var whole := WholeLeaves(sol, token, n);
    var y1, y2, y3 := BuyThree(sol, token, total - 100, n);
    ThreeRoundings(sol * token, sol + 99, sol + 100, sol + n + 1, y1, y2, y3, whole);
  }

  lemma WholeLeaves(sol: nat, token: nat, n: nat) returns (left: nat)
    requires 0 < sol && 0 < token
    ensures left == token - ExactSwap(sol, token, n, 0) && sol * token <= left * (sol + n)
  {
    SwapBound(sol, token, n, 0);
    left := token - ExactSwap(sol, token, n, 0);
    Left(sol, token, n, left);
  }

  /** With 100 lamports or more, 99 and 1 go first: they pay no fee, and the rest pays one lamport less. */
  lemma SaveOneLamport(sol: U64, token: U64, total: nat) returns (amounts: seq<nat>)
    requires 0 < sol && 100 <= total && sol + total < U64_LIMIT
    requires NetFits(PumpFunNet(total), token)
    requires 3 * (sol + PumpFunNet(total) + 1) <= token - PumpFunBuyOutput(Curve(sol, token), total)
    ensures Sum(amounts) == total
    ensures PumpFunBuyOutput(Curve(sol, token), total) < BuyInTurn(sol, token, amounts)
  {
    amounts := [99, 1, total - 100];
    MachineSwapIsExactIff(sol, token, PumpFunNet(total), 0);
    ThreePieces(sol, token, total, PumpFunNet(total));
  }

  // ----- buying: a product that wraps around -----

  /** The lamports that leave `net` after the fee. */
  lemma GrossFor(net: nat, limit: nat) returns (gross: nat)
    requires net <= PumpFunNet(limit)
    ensures gross <= limit && PumpFunNet(gross) == net
  {
    gross := net + if net == 0 then 0 else (net - 1) / 99;
  }

  lemma FirstBuyCounts(sol: U64, token: U64, a: nat, b: nat)
    requires sol + a + b < U64_LIMIT
    ensures Sum([a, b]) == a + b && PumpFunBuyOutput(Curve(sol, token), a) <= BuyInTurn(sol, token, [a, b])
  {
    assert [a, b][1..] == [b] && [b][1..] == [];
    assert Sum([b]) == b;
    PaysWithinReserve(sol, token, PumpFunNet(a), 0);
    BuyHead(sol, token, [a, b], PumpFunBuyOutput(Curve(sol, token), a));
  }

  /** Once the product of the whole wraps around, some split in two buys strictly more. */
  lemma WrappedBuyIsBeaten(sol: U64, token: U64, total: nat) returns (amounts: seq<nat>)
    requires 0 < sol && sol + total < U64_LIMIT && !NetFits(PumpFunNet(total), token)
    ensures Sum(amounts) == total
    ensures PumpFunBuyOutput(Curve(sol, token), total) < BuyInTurn(sol, token, amounts)
  {
    var n := PumpFunNet(total);
    var piece := SplitInTwo(token, n, BPS);
    WholeAgainstPiece(sol, token, piece, n - piece, 0, BPS * token);
    var gross := GrossFor(piece, total);
    amounts := [gross, total - gross];
    FirstBuyCounts(sol, token, gross, total - gross);
  }

  // ----- buying: exactly when -----

  /** After the trade the token reserve is still three times the SOL reserve, unit for unit. */
  predicate StaysDeep(sol: U64, token: U64, total: nat)
    requires sol + total < U64_LIMIT
  {
    3 * (sol + PumpFunNet(total) + 1) <= token - PumpFunBuyOutput(Curve(sol, token), total)
  }

  /** On a curve that stays deep, or whose product wraps around, a buy is worth splitting from 100 lamports on. */
  lemma DeepCurveSplitsIff(sol: U64, token: U64, total: nat)
    requires 0 < sol && sol + total < U64_LIMIT
    requires StaysDeep(sol, token, total) || !NetFits(PumpFunNet(total), token)
    ensures BuysNeverSplit(sol, token, total) <==> total < 100
  {
    if total < 100 {
      SmallBuysNeverSplit(sol, token, total);
    } else if NetFits(PumpFunNet(total), token) {
      var amounts := SaveOneLamport(sol, token, total);
    } else {
      var amounts := WrappedBuyIsBeaten(sol, token, total);
    }
  }

  lemma DoublingCurve(n: nat)
    requires 0 < n < 0x10_0000_0000_0000
    ensures NetFits(n, 12 * n + 8)
    ensures 3 * (n + n + 1) <= 12 * n + 8 - ExactSwap(n, 12 * n + 8, n, 0)
  {
    FeelessIff(n, 12 * n + 8, n, 6 * n + 5);
    assert (n + n) * (12 * n + 8 - (6 * n + 5)) == n * (12 * n + 6);
    Distribute(n, 12 * n + 6, 2);
    MulMonotone(n, 0x10_0000_0000_0000, BPS);
    ProductShrinks(n, 0x10_0000_0000_0000, BPS, 12 * n + 8, 0x100_0000_0000_0000);
  }

  /** Some curve on which a buy of 100 lamports or more is worth splitting. */
  lemma CurveForSplit(total: nat) returns (sol: U64, token: U64)
    requires 100 <= total < U64_LIMIT - 1
    ensures 0 < sol && sol + total < U64_LIMIT && !BuysNeverSplit(sol, token, total)
  {
    var n := PumpFunNet(total);
    if n < 0x10_0000_0000_0000 {
      sol, token := n, 12 * n + 8;
      DoublingCurve(n);
      MachineSwapIsExactIff(sol, token, n, 0);
    } else {
      sol, token := 1, U64_LIMIT - 1;
      ProductShrinks(0x10_0000_0000_0000, n, BPS, token, token);
    }
    DeepCurveSplitsIff(sol, token, total);
  }

  /** An amount is never worth splitting, whatever the curve, exactly when it is below 100 lamports. */
  lemma BuyAmountNeverSplitsIff(total: nat)
    requires total < U64_LIMIT - 1
    ensures (forall sol: U64, token: U64 | 0 < sol && sol + total < U64_LIMIT :: BuysNeverSplit(sol, token, total))
       <==> total < 100
  {
    if total < 100 {
      forall sol: U64, token: U64 | 0 < sol && sol + total < U64_LIMIT
        ensures BuysNeverSplit(sol, token, total)
      {
        SmallBuysNeverSplit(sol, token, total);
      }
    } else {
      var sol, token := CurveForSplit(total);
    }
  }

  lemma OrdinaryCurve(n: nat)
    requires n <= MAX_TRADE_LAMPORTS
    ensures NetFits(n, 1_073_000_000_000_000)
    ensures ExactSwap(30_000_000_000, 1_073_000_000_000_000, n, 0) <= 100_000_000_000_000
  {
    FeelessIff(30_000_000_000, 1_073_000_000_000_000, n, 100_000_000_000_001);
  }

  /** On 30 SOL and 1.073 billion tokens, the scanner's buys are worth splitting from 100 lamports on. */
  lemma ScannerBuysSplitIff(trade: nat)
    requires trade <= MAX_TRADE_LAMPORTS
    ensures BuysNeverSplit(30_000_000_000, 1_073_000_000_000_000, trade) <==> trade < 100
  {
    OrdinaryCurve(PumpFunNet(trade));
    MachineSwapIsExactIff(30_000_000_000, 1_073_000_000_000_000, PumpFunNet(trade), 0);
    DeepCurveSplitsIff(30_000_000_000, 1_073_000_000_000_000, trade);
  }

  const PIECE_ONE: nat := 1_767_535_352_056
  const PIECE_TWO: nat := 1_761_718_147_045

  lemma TenthQuotes()
    ensures PumpFunBuyOutput(Curve(30_000_000_000, 1_073_000_000_000_000), 100_000_000) == 3_529_253_463_570
    ensures PumpFunBuyOutput(Curve(30_000_000_000, 1_073_000_000_000_000), 50_000_050) == PIECE_ONE
    ensures PumpFunBuyOutput(Curve(30_049_500_050, 1_073_000_000_000_000 - PIECE_ONE), 49_999_950) == PIECE_TWO
  {
    MachineSwapIsExactIff(30_000_000_000, 1_073_000_000_000_000, 99_000_000, 0);
    MachineSwapIsExactIff(30_000_000_000, 1_073_000_000_000_000, 49_500_050, 0);
    MachineSwapIsExactIff(30_049_500_050, 1_073_000_000_000_000 - PIECE_ONE, 49_499_951, 0);
  }

  /** A tenth of a SOL in two pieces buys 35531 units more than at once. */
  lemma TenthOfASolSplits()
    ensures PumpFunBuyOutput(Curve(30_000_000_000, 1_073_000_000_000_000), 100_000_000) == 3_529_253_463_570
    ensures Sum([50_000_050, 49_999_950]) == 100_000_000
    ensures BuyInTurn(30_000_000_000, 1_073_000_000_000_000, [50_000_050, 49_999_950]) == 3_529_253_499_101
  {
    TenthQuotes();
    var pieces: seq<nat> := [50_000_050, 49_999_950];
    assert pieces[1..] == [49_999_950] && pieces[1..][1..] == [];
    assert Sum(pieces[1..]) == 49_999_950;
    BuyHead(30_000_000_000, 1_073_000_000_000_000, pieces, PIECE_ONE);
    BuyHead(30_049_500_050, 1_073_000_000_000_000 - PIECE_ONE, pieces[1..], PIECE_TWO);
  }

  // ----- selling: pieces pay out at most the gross -----

  lemma SellAtMostGross(sol: U64, token: U64, a: U64)
    ensures PumpFunSellOutput(Curve(sol, token), a) <= ConstantProductSwap(token, sol, a, 0)
  {
  }

  lemma {:induction false} SellsAtMostGross(sol: U64, token: U64, amounts: seq<nat>)
    requires token + Sum(amounts) < U64_LIMIT
    ensures SellInTurn(sol, token, amounts) <= MachineInTurn(token, sol, amounts, 0)
    decreases |amounts|
  {
    if amounts != [] {
      SellAtMostGross(sol, token, amounts[0]);
      PaysWithinReserve(token, sol, amounts[0], 0);
      var gross := ConstantProductSwap(token, sol, amounts[0], 0);
      SellsAtMostGross(sol - gross, token + amounts[0], amounts[1..]);
    }
  }

  /** A sale whose gross output is below 100 lamports pays no fee, and no split of it pays more. */
  lemma SmallSalesNeverSplit(sol: U64, token: U64, total: nat)
    requires 0 < token && token + total < U64_LIMIT && NetFits(total, sol)
    requires ConstantProductSwap(token, sol, total, 0) < 100
    ensures SellsNeverSplit(sol, token, total)
  {
    forall amounts: seq<nat> | Sum(amounts) == total
      ensures SellInTurn(sol, token, amounts) <= PumpFunSellOutput(Curve(sol, token), total)
    {
      SellsAtMostGross(sol, token, amounts);
      PiecesNeverPayMore(token, sol, amounts, 0);
      EmptySolPaysNothing(token, total);
    }
  }

  lemma EmptySolPaysNothing(token: U64, total: U64)
    ensures ConstantProductSwap(token, 0, total, 0) == 0
  {
  }

  // ----- selling: pieces of 99 and 1 lamports pay no fee -----

  lemma RoundedUp(n: nat, d: nat) returns (q: nat)
    requires 0 < d
    ensures n <= q * d < n + d
  {
    q := (n + d - 1) / d;
    QuotientIsLargest(n + d - 1, d, q);
    QuotientIsLargest(n + d - 1, d, q + 1);
    Distribute(d, q, 1);
  }

  /** The fewest tokens that pay exactly p lamports gross, where a token unit is worth at most a lamport. */
  lemma TokensFor(token: nat, sol: nat, p: nat) returns (t: nat)
    requires 0 < p < sol <= token
    ensures ExactSwap(token, sol, t, 0) == p
    ensures token * sol <= (token + t) * (sol - p) < token * sol + sol
  {
    var q := RoundedUp(token * sol, sol - p);
    if q < token {
      MulMonotone(q + 1, token, sol - p);
      MulMonotone(sol - p, sol, token);
      assert false;
    }
    t := q - token;
    Distribute(token + t, sol - p - 1, 1);
    FeelessIff(token, sol, t, p);
    FeelessIff(token, sol, t, p + 1);
  }

  lemma SellHead(sol: U64, token: U64, amounts: seq<nat>, gross: nat)
    requires amounts != [] && token + Sum(amounts) < U64_LIMIT
    requires gross == ConstantProductSwap(token, sol, amounts[0], 0) <= sol
    ensures SellInTurn(sol, token, amounts)
         == PumpFunSellOutput(Curve(sol, token), amounts[0])
            + SellInTurn(sol - gross, token + amounts[0], amounts[1..])
  {
  }

  lemma SaleOf(sol: U64, token: U64, t: U64, total: nat, gross: nat)
    requires 0 < sol && 0 < token && t <= total && NetFits(total, sol) && gross == ExactSwap(token, sol, t, 0)
    ensures gross == ConstantProductSwap(token, sol, t, 0) < sol
    ensures PumpFunSellOutput(Curve(sol, token), t) == PumpFunNet(gross)
  {
    ProductShrinks(t, total, BPS, sol, sol);
    MachineSwapIsExactIff(token, sol, t, 0);
    SwapBound(token, sol, t, 0);
  }

  /** Selling the first two pieces for 99 and 1 lamports pays 100 and no fee. */
  lemma FirstRound(sol: U64, token: U64, t1: nat, t2: nat, rest: seq<nat>, total: nat)
    requires 100 < sol <= token && token + t1 + t2 + Sum(rest) < U64_LIMIT
    requires t1 <= total && t2 <= total && NetFits(total, sol)
    requires ExactSwap(token, sol, t1, 0) == 99 && ExactSwap(token + t1, sol - 99, t2, 0) == 1
    ensures Sum([t1, t2] + rest) == t1 + t2 + Sum(rest)
    ensures SellInTurn(sol, token, [t1, t2] + rest) == 100 + SellInTurn(sol - 100, token + t1 + t2, rest)
  {
    var all := [t1, t2] + rest;
    assert all[1..] == [t2] + rest && all[1..][1..] == rest;
    assert Sum(all[1..]) == t2 + Sum(rest);
    ProductShrinks(total, total, BPS, sol - 99, sol);
    SaleOf(sol, token, t1, total, 99);
    SaleOf(sol - 99, token + t1, t2, total, 1);
    SellHead(sol, token, all, 99);
    SellHead(sol - 99, token + t1, all[1..], 1);
  }

  /** The tokens of one round, and how little they round away. */
  lemma RoundTokens(sol: nat, token: nat, t: nat, last: nat) returns (t1: nat, t2: nat)
    requires 100 < sol <= token && 0 < last <= sol - 100
    requires token * sol + 2 * sol <= (token + t) * last
    ensures ExactSwap(token, sol, t1, 0) == 99 && ExactSwap(token + t1, sol - 99, t2, 0) == 1
    ensures t1 + t2 <= t && (token + t1 + t2) * (sol - 100) < token * sol + 2 * sol
  {
    t1 := TokensFor(token, sol, 99);
    t2 := TokensFor(token + t1, sol - 99, 1);
    var after := token + t1 + t2;
    if t < t1 + t2 {
      MulMonotone(token + t, after, last);
      MulMonotone(last, sol - 100, after);
      assert false;
    }
  }

  /**
    When selling t tokens leaves room for the rounding of k rounds, then k rounds of
    99 and 1 lamports and a last piece pay 100 k and the net of the rest.
   */
  lemma {:induction false} SellRounds(sol: U64, token: U64, t: nat, k: nat, low: nat) returns (amounts: seq<nat>)
    requires 0 < sol <= token && token + t < U64_LIMIT && NetFits(t, sol) && 100 * k + low < sol
    requires token * sol + 2 * k * sol <= (token + t) * (sol - 100 * k - low)
    ensures Sum(amounts) == t && 100 * k + PumpFunNet(low) <= SellInTurn(sol, token, amounts)
    decreases k
  {
    if k == 0 {
      amounts := [t];
      LastSale(sol, token, t, low);
    } else {
      var last := sol - 100 * k - low;
      MulMonotone(2, 2 * k, sol);
      var t1, t2 := RoundTokens(sol, token, t, last);
      MulMonotone(sol - 100, sol, 2 * (k - 1));
      Distribute(sol, 2 * (k - 1), 2);
      ProductShrinks(t - t1 - t2, t, BPS, sol - 100, sol);
      var rest := SellRounds(sol - 100, token + t1 + t2, t - t1 - t2, k - 1, low);
      amounts := [t1, t2] + rest;
      FirstRound(sol, token, t1, t2, rest, t);
    }
  }

  lemma LastSale(sol: U64, token: U64, t: nat, low: nat)
    requires 0 < sol && 0 < token && token + t < U64_LIMIT && NetFits(t, sol) && low < sol
    requires token * sol <= (token + t) * (sol - low)
    ensures Sum([t]) == t && PumpFunNet(low) <= SellInTurn(sol, token, [t])
  {
    assert [t][1..] == [];
    FeelessIff(token, sol, t, low);
    var gross := ExactSwap(token, sol, t, 0);
    SaleOf(sol, token, t, t, gross);
    SellHead(sol, token, [t], gross);
  }

  /** What one swap of all tokens leaves of the SOL reserve, times the new token reserve. */
  function Remainder(sol: nat, token: nat, t: nat): int {
    (token + t) * (sol - ExactSwap(token, sol, t, 0))
  }

  /** A sale of 100 lamports or more is worth splitting when its own rounding leaves room for one round. */
  lemma RoomySalesSplit(sol: U64, token: U64, t: nat)
    requires 0 < sol <= token && token + t < U64_LIMIT && NetFits(t, sol)
    requires 100 <= ExactSwap(token, sol, t, 0) && token * sol + 2 * sol <= Remainder(sol, token, t)
    ensures !SellsNeverSplit(sol, token, t)
  {
    var gross := ExactSwap(token, sol, t, 0);
    SaleOf(sol, token, t, t, gross);
    var amounts := SellRounds(sol, token, t, 1, gross - 100);
    assert PumpFunNet(gross) < 100 + PumpFunNet(gross - 100);
  }

  /** And any sale of 201 lamports or more is, on a curve with at least four token units for a lamport. */
  lemma OrdinarySalesSplit(sol: U64, token: U64, t: nat)
    requires 0 < sol && 4 * sol <= token && token + t < U64_LIMIT && NetFits(t, sol)
    requires 201 <= ExactSwap(token, sol, t, 0)
    ensures !SellsNeverSplit(sol, token, t)
  {
    var gross := ExactSwap(token, sol, t, 0);
    SaleOf(sol, token, t, t, gross);
    FeelessIff(token, sol, t, gross);
    Distribute(token + t, sol - gross, 1);
    var amounts := SellRounds(sol, token, t, 2, gross - 201);
    assert PumpFunNet(gross) < 200 + PumpFunNet(gross - 201);
  }

  // ----- selling: a product that wraps around -----

  lemma FirstSaleCounts(sol: U64, token: U64, a: nat, b: nat)
    requires token + a + b < U64_LIMIT
    ensures Sum([a, b]) == a + b && PumpFunSellOutput(Curve(sol, token), a) <= SellInTurn(sol, token, [a, b])
  {
    assert [a, b][1..] == [b] && [b][1..] == [];
    assert Sum([b]) == b;
    PaysWithinReserve(token, sol, a, 0);
    SellHead(sol, token, [a, b], ConstantProductSwap(token, sol, a, 0));
  }

  lemma NetGrows(low: nat, high: nat)
    requires low + 2 <= high
    ensures PumpFunNet(low) < PumpFunNet(high)
  {
  }

  /** Once the product of the whole wraps around, some split in two pays strictly more, after the fee too. */
  lemma WrappedSaleIsBeaten(sol: U64, token: U64, total: nat) returns (amounts: seq<nat>)
    requires 0 < token && token + total < U64_LIMIT && !NetFits(total, sol)
    ensures Sum(amounts) == total
    ensures PumpFunSellOutput(Curve(sol, token), total) < SellInTurn(sol, token, amounts)
  {
    var piece := SplitInTwo(sol, total, BPS);
    WholeAgainstPiece(token, sol, piece, total - piece, 0, BPS * sol);
    amounts := [piece, total - piece];
    FirstSaleCounts(sol, token, piece, total - piece);
    NetGrows(ConstantProductSwap(token, sol, total, 0), ConstantProductSwap(token, sol, piece, 0));
  }

  // ----- selling: exactly when -----

  /**
    On a curve with at least four token units for a lamport, a sale is never worth
    splitting exactly when its product fits and it pays less than 100 lamports gross.
   */
  lemma OrdinarySaleSplitsIff(sol: U64, token: U64, t: nat)
    requires 0 < sol && 4 * sol <= token && token + t < U64_LIMIT
    requires !(100 <= ExactSwap(token, sol, t, 0) <= 200)
    ensures SellsNeverSplit(sol, token, t) <==> NetFits(t, sol) && ExactSwap(token, sol, t, 0) < 100
  {
    if !NetFits(t, sol) {
      var amounts := WrappedSaleIsBeaten(sol, token, t);
    } else if ExactSwap(token, sol, t, 0) < 100 {
      SaleOf(sol, token, t, t, ExactSwap(token, sol, t, 0));
      SmallSalesNeverSplit(sol, token, t);
    } else {
      OrdinarySalesSplit(sol, token, t);
    }
  }

  /** A curve whose doubled token reserve is worth half a lamport more than `gross`. */
  lemma HalfLamportOver(gross: nat) returns (sol: U64, token: U64)
    requires gross <= 5 * MAX_TRADE_LAMPORTS
    ensures 0 < sol <= token && token + token < U64_LIMIT && NetFits(token, sol)
    ensures ExactSwap(token, sol, token, 0) == gross && token * sol + 2 * sol <= Remainder(sol, token, token)
  {
    sol := 2 * gross + 1;
    token := 2 * sol;
    FeelessIff(token, sol, token, gross);
    FeelessIff(token, sol, token, gross + 1);
    assert (token + token) * (sol - gross) == token * (2 * (sol - gross));
    assert (token + token) * (sol - gross - 1) == token * (2 * (sol - gross - 1));
    MulMonotone(sol, 2 * (sol - gross), token);
    MulMonotone(2 * (sol - gross - 1) + 1, sol, token);
    Distribute(token, sol, 1);
    ProductShrinks(token, 60_000_000_000, BPS, sol, 60_000_000_000);
  }

  /**
    Among gross outputs up to what the 5x check lets pass, one is never worth
    splitting, whatever the curve and the tokens, exactly when it is below 100 lamports.
   */
  lemma SaleNeverSplitsIff(gross: nat)
    requires gross <= 5 * MAX_TRADE_LAMPORTS
    ensures (forall sol: U64, token: U64, t: nat |
               0 < token && token + t < U64_LIMIT && NetFits(t, sol)
               && ConstantProductSwap(token, sol, t, 0) == gross ::
                 SellsNeverSplit(sol, token, t))
       <==> gross < 100
  {
    if gross < 100 {
      forall sol: U64, token: U64, t: nat |
        0 < token && token + t < U64_LIMIT && NetFits(t, sol) && ConstantProductSwap(token, sol, t, 0) == gross
        ensures SellsNeverSplit(sol, token, t)
      {
        SmallSalesNeverSplit(sol, token, t);
      }
    } else {
      var sol, token := HalfLamportOver(gross);
      SaleOf(sol, token, token, token, gross);
      RoomySalesSplit(sol, token, token);
    }
  }
}
