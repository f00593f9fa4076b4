/**
  Splitting a trade into pieces, in the u128/u64 arithmetic of the program.  The
  formula never favours splitting; the machine can, because its output collapses
  when the product of the whole wraps around.
 */
module MachineSplits {
  import opened MachineInts
  import opened Amm
  import opened AmmMachine
  import opened PoolRuns

  /** What the program pays when `amounts` are swapped one after the other on the moving reserves. */
  function MachineInTurn(x: U64, y: U64, amounts: seq<nat>, feeBps: nat): nat
    requires feeBps <= BPS && x + Sum(amounts) < U64_LIMIT
    decreases |amounts|
  {
    if amounts == [] then 0
    else
      var out := ConstantProductSwap(x, y, amounts[0], feeBps);
      PaysWithinReserve(x, y, amounts[0], feeBps);
      out + MachineInTurn(x + amounts[0], y - out, amounts[1..], feeBps)
  }

  lemma PaysWithinReserve(x: U64, y: U64, a: U64, feeBps: nat)
    requires feeBps <= BPS
    ensures ConstantProductSwap(x, y, a, feeBps) <= y
  {
    MachineSwapIsExactIff(x, y, a, feeBps);
    SwapBound(x, y, a, feeBps);
  }

  /** No split of `total` pays more than the one swap. */
  ghost predicate SplittingNeverHelps(x: U64, y: U64, total: nat, feeBps: nat)
    requires feeBps <= BPS && x + total < U64_LIMIT
  {
    forall amounts: seq<nat> | Sum(amounts) == total ::
      MachineInTurn(x, y, amounts, feeBps) <= ConstantProductSwap(x, y, total, feeBps)
  }

  // ----- while the whole product fits -----

  lemma ProductShrinks(a: nat, b: nat, f: nat, y: nat, z: nat)
    requires a <= b && y <= z
    ensures 0 <= a * f * y <= b * f * z
  {
    MulMonotone(a, b, f);
    NonNegative(a, f);
    MulMonotone(a * f, b * f, y);
    NonNegative(b, f);
    MulMonotone(y, z, b * f);
    NonNegative(a * f, y);
  }

  /** If the whole product fits, every piece is computed exactly. */
  lemma {:induction false} PiecesAreExact(x: U64, y: U64, amounts: seq<nat>, feeBps: nat)
    requires feeBps <= BPS && x + Sum(amounts) < U64_LIMIT
    requires Sum(amounts) * (BPS - feeBps) * y < U128_LIMIT
    ensures MachineInTurn(x, y, amounts, feeBps) == SwapInTurn(x, y, amounts, feeBps)
    decreases |amounts|
  {
    if amounts != [] {
      ProductShrinks(amounts[0], Sum(amounts), BPS - feeBps, y, y);
      MachineSwapIsExactIff(x, y, amounts[0], feeBps);
      var out := ConstantProductSwap(x, y, amounts[0], feeBps);
      PaysWithinReserve(x, y, amounts[0], feeBps);
      ProductShrinks(Sum(amounts[1..]), Sum(amounts), BPS - feeBps, y - out, y);
      PiecesAreExact(x + amounts[0], y - out, amounts[1..], feeBps);
    }
  }

  /** While the product of the whole trade fits in 128 bits, no split of it pays more. */
  lemma PiecesNeverPayMore(x: U64, y: U64, amounts: seq<nat>, feeBps: nat)
    requires feeBps <= BPS && 0 < x && x + Sum(amounts) < U64_LIMIT
    requires Sum(amounts) * (BPS - feeBps) * y < U128_LIMIT
    ensures MachineInTurn(x, y, amounts, feeBps) <= ConstantProductSwap(x, y, Sum(amounts), feeBps)
  {
    PiecesAreExact(x, y, amounts, feeBps);
    MachineSwapIsExactIff(x, y, Sum(amounts), feeBps);
    if 0 < y {
      PiecesNeverBeatTheWhole(x, y, amounts, feeBps);
    } else {
      NothingToPay(x, y, amounts, feeBps);
    }
  }

  // ----- once it wraps -----

  lemma TwoInTurn(x: U64, y: U64, a: nat, b: nat, feeBps: nat)
    requires feeBps <= BPS && x + a + b < U64_LIMIT
    ensures Sum([a, b]) == a + b
    ensures ConstantProductSwap(x, y, a, feeBps) <= MachineInTurn(x, y, [a, b], feeBps)
  {
    assert [a, b][1..] == [b] && [b][1..] == [];
    assert Sum([b]) == b;
  }

  /** The largest first piece whose product fits; `unit` is the product of one lamport. */
  lemma LargestPiece(unit: nat, total: nat) returns (piece: nat)
    requires 0 < unit && U128_LIMIT <= total * unit
    ensures piece < total && U128_LIMIT - unit <= piece * unit < U128_LIMIT
  {
    piece := (U128_LIMIT - 1) / unit;
    QuotientIsLargest(U128_LIMIT - 1, unit, piece);
    QuotientIsLargest(U128_LIMIT - 1, unit, piece + 1);
    Distribute(unit, piece, 1);
    if total <= piece {
      MulMonotone(total, piece, unit);
      assert false;
    }
  }

  /**
    n1 / d1 is what the first piece pays, r / d what the wrapped whole pays; `rest`
    is the product of the remaining amount and the fee factor.
   */
  lemma PieceBeatsWrapped(n1: nat, d1: nat, r: nat, d: nat, rest: nat, y: nat, unit: nat)
    requires 0 < d1 && d == d1 + rest && d <= 2 * U64_LIMIT * BPS
    requires unit <= BPS * U64_LIMIT && y < U64_LIMIT
    requires U128_LIMIT - unit <= n1 < U128_LIMIT && r < U128_LIMIT
    requires r <= rest * y
    ensures r / d + 2 <= n1 / d1
  {
    var q := r / d;
    QuotientIsLargest(r, d, q);
    QuotientIsLargest(n1, d1, q + 2);
    Distribute(d1, q, 2);
    Distribute(q, d1, rest);
    NonNegative(q, rest);
    if U128_LIMIT / 2 < r {
      RestIsLarge(rest, y);
      QuotientIsLargest(r, d, 0x1_0000_0000);
      MulMonotone(0x1_0000_0000, q, rest);
      MulMonotone(0x4000_0000_0000_0000, rest, 0x1_0000_0000);
    }
  }

  lemma RestIsLarge(rest: nat, y: nat)
    requires U128_LIMIT / 2 < rest * y && y < U64_LIMIT
    ensures 0x4000_0000_0000_0000 <= rest
  {
    if rest < 0x4000_0000_0000_0000 {
      MulMonotone(rest, 0x4000_0000_0000_0000, y);
      assert false;
    }
  }

  /** Once the product of the whole wraps around, some split in two pays strictly more. */
  lemma WrappedWholeIsBeaten(x: U64, y: U64, total: nat, feeBps: nat) returns (amounts: seq<nat>)
    requires feeBps <= BPS && 0 < x && x + total < U64_LIMIT
    requires U128_LIMIT <= total * (BPS - feeBps) * y
    ensures |amounts| == 2 && Sum(amounts) == total
    ensures ConstantProductSwap(x, y, total, feeBps) < MachineInTurn(x, y, amounts, feeBps)
  {
    var piece := SplitInTwo(y, total, BPS - feeBps);
    amounts := [piece, total - piece];
    TwoInTurn(x, y, piece, total - piece, feeBps);
    WholeAgainstPiece(x, y, piece, total - piece, feeBps, (BPS - feeBps) * y);
  }

  lemma Associate(a: int, b: int, c: int)
    ensures a * b * c == a * (b * c)
  {
  }

  lemma SplitInTwo(y: U64, total: nat, f: nat) returns (piece: nat)
    requires f <= BPS && U128_LIMIT <= total * f * y
    ensures 0 < f && 0 < y && 0 < piece < total && f * y <= BPS * U64_LIMIT
    ensures U128_LIMIT - f * y <= piece * (f * y) < U128_LIMIT <= total * (f * y)
  {
    Associate(total, f, y);
    NonNegative(f, y);
    MulMonotone(f, BPS, y);
    MulMonotone(y, U64_LIMIT, BPS);
    piece := LargestPiece(f * y, total);
  }

  /** Amounts after fees, and their products with the reserve. */
  lemma Nets(x: U64, y: U64, piece: nat, rest: nat, f: nat)
    requires f <= BPS && 0 < x && x + piece + rest < U64_LIMIT
    ensures piece * f * y == piece * (f * y) && rest * f * y == rest * (f * y)
    ensures (piece + rest) * f == piece * f + rest * f
    ensures (piece + rest) * (f * y) == piece * (f * y) + rest * (f * y)
    ensures (piece + rest) * f * y == (piece + rest) * (f * y)
    ensures 0 <= piece * f && 0 <= rest * f
    ensures x * BPS + (piece + rest) * f <= 2 * U64_LIMIT * BPS
  {
    Associate(piece, f, y);
    Associate(rest, f, y);
    Associate(piece + rest, f, y);
    Distribute(f, piece, rest);
    Distribute(f * y, piece, rest);
    NonNegative(piece, f);
    NonNegative(rest, f);
    SmallTerms(x, piece + rest, f);
  }

  lemma WholeAgainstPiece(x: U64, y: U64, piece: nat, rest: nat, feeBps: nat, unit: nat)
    requires feeBps < BPS && 0 < x && 0 < y && 0 < piece && x + piece + rest < U64_LIMIT
    requires unit == (BPS - feeBps) * y <= BPS * U64_LIMIT
    requires U128_LIMIT - unit <= piece * unit < U128_LIMIT <= (piece + rest) * unit
    ensures ConstantProductSwap(x, y, piece + rest, feeBps) + 2 <= ConstantProductSwap(x, y, piece, feeBps)
  {
    Nets(x, y, piece, rest, BPS - feeBps);
    NetsDecide(x, y, piece, rest, feeBps, piece * (BPS - feeBps), rest * (BPS - feeBps),
               piece * unit, rest * unit, unit);
  }

  lemma Quotients(n1: nat, d1: nat, r: nat, d: nat, rest: nat, y: nat, unit: nat) returns (paid: nat, best: nat)
    requires 0 < d1 && d == d1 + rest && d <= 2 * U64_LIMIT * BPS
    requires unit <= BPS * U64_LIMIT && y < U64_LIMIT
    requires U128_LIMIT - unit <= n1 < U128_LIMIT && r < U128_LIMIT
    requires r <= rest * y
    ensures paid == r / d && best == n1 / d1 && paid + 2 <= best
  {
    PieceBeatsWrapped(n1, d1, r, d, rest, y, unit);
    paid, best := r / d, n1 / d1;
  }

  /** The same with every product a number of its own. */
  lemma NetsDecide(
    x: U64, y: U64, piece: nat, rest: nat, feeBps: nat, netPiece: nat, netRest: nat, n1: nat, n2: nat, unit: nat)
    requires feeBps < BPS && 0 < x && 0 < y && 0 < piece && x + piece + rest < U64_LIMIT
    requires netPiece == piece * (BPS - feeBps) && netPiece + netRest == (piece + rest) * (BPS - feeBps)
    requires n1 == netPiece * y && n2 == netRest * y && n1 + n2 == (netPiece + netRest) * y
    requires x * BPS + netPiece + netRest <= 2 * U64_LIMIT * BPS && unit <= BPS * U64_LIMIT
    requires U128_LIMIT - unit <= n1 < U128_LIMIT <= n1 + n2
    ensures ConstantProductSwap(x, y, piece + rest, feeBps) + 2 <= ConstantProductSwap(x, y, piece, feeBps)
  {
    var d1, r, d := x * BPS + netPiece, WrapU128(n1 + n2), x * BPS + netPiece + netRest;
    WrapBelow(n1 + n2);
    var paid, best := Quotients(n1, d1, r, d, netRest, y, unit);
    PieceIsExact(x, y, piece, feeBps, n1, d1);
    PaysAtMostQuotient(x, y, piece + rest, feeBps, netPiece + netRest, n1 + n2, d, paid);
  }

  lemma PieceIsExact(x: U64, y: U64, a: U64, feeBps: nat, n: nat, d: nat)
    requires feeBps <= BPS && 0 < x && 0 < y && 0 < a
    requires n == a * (BPS - feeBps) * y < U128_LIMIT && 0 < d == x * BPS + a * (BPS - feeBps)
    ensures ConstantProductSwap(x, y, a, feeBps) == n / d
  {
    MachineSwapIsExactIff(x, y, a, feeBps);
  }

  /** The machine's quotient, with the amount after fees as a number of its own. */
  lemma MachineQuotientOf(x: U64, y: U64, a: U64, feeBps: nat, net: nat, d: nat)
    requires feeBps <= BPS && 0 < x && 0 < y && 0 < a
    requires net == a * (BPS - feeBps) < U128_LIMIT && 0 < d == x * BPS + net < U128_LIMIT
    ensures ConstantProductSwap(x, y, a, feeBps) == WrapU64(WrapU128(net * y) / d)
  {
    WrapBelow(net);
    WrapBelow(d);
  }

  lemma PaysAtMostQuotient(x: U64, y: U64, a: U64, feeBps: nat, net: nat, n: nat, d: nat, q: nat)
    requires feeBps <= BPS && 0 < x && 0 < y && 0 < a && n == net * y
    requires net == a * (BPS - feeBps) < U128_LIMIT && 0 < d == x * BPS + net < U128_LIMIT
    requires q == WrapU128(n) / d
    ensures ConstantProductSwap(x, y, a, feeBps) <= q
  {
    MachineQuotientOf(x, y, a, feeBps, net, d);
    WrapU64AtMost(q);
  }

  lemma WrapU64AtMost(n: nat)
    ensures WrapU64(n) <= n
  {
  }

  lemma OnePiece()
    ensures ConstantProductSwap(1_000_000_000_000_000_000, 10_000_000_000_000_000_000,
                                1_800_000_000_000_000, CP_FEE_BPS)
         == 17_922_819_577_448_690
  {
    PieceIsExact(1_000_000_000_000_000_000, 10_000_000_000_000_000_000, 1_800_000_000_000_000, CP_FEE_BPS,
                 179_550_000_000_000_000_000_000_000_000_000_000_000, 10_017_955_000_000_000_000_000);
  }

  lemma TheWhole()
    ensures ConstantProductSwap(1_000_000_000_000_000_000, 10_000_000_000_000_000_000,
                                3_600_000_000_000_000, CP_FEE_BPS)
         <= 1_875_030_074_907_162
  {
    assert WrapU128(359_100_000_000_000_000_000_000_000_000_000_000_000)
        == 18_817_633_079_061_536_536_625_392_568_231_788_544;
    PaysAtMostQuotient(1_000_000_000_000_000_000, 10_000_000_000_000_000_000, 3_600_000_000_000_000, CP_FEE_BPS,
                       35_910_000_000_000_000_000, 359_100_000_000_000_000_000_000_000_000_000_000_000,
                       10_035_910_000_000_000_000_000, 1_875_030_074_907_162);
  }

  /** Reserves of 10^18 and 10^19: 1.8 million SOL pay more twice than 3.6 million do at once. */
  lemma SplittingCanHelp()
    ensures Sum([1_800_000_000_000_000, 1_800_000_000_000_000]) == 3_600_000_000_000_000
    ensures ConstantProductSwap(1_000_000_000_000_000_000, 10_000_000_000_000_000_000,
                                3_600_000_000_000_000, CP_FEE_BPS)
          < MachineInTurn(1_000_000_000_000_000_000, 10_000_000_000_000_000_000,
                          [1_800_000_000_000_000, 1_800_000_000_000_000], CP_FEE_BPS)
  {
    TwoInTurn(1_000_000_000_000_000_000, 10_000_000_000_000_000_000,
              1_800_000_000_000_000, 1_800_000_000_000_000, CP_FEE_BPS);
    OnePiece();
    TheWhole();
  }

  // ----- the empty input reserve -----

  lemma HalfOfProduct(r: nat, f: nat, y: nat)
    requires 2 <= y
    ensures r * f * y <= 2 * (r * f * (y - 1))
  {
    NonNegative(r, f);
    MulMonotone(y, 2 * (y - 1), r * f);
  }

  /** A revived reserve that is too large for what is left to buy anything. */
  lemma RevivedPaysNothing(x: U64, y: U64, rest: seq<nat>, feeBps: nat)
    requires feeBps <= BPS && 0 < x && x + Sum(rest) < U64_LIMIT
    requires y <= 1 || Sum(rest) * (BPS - feeBps) * (y - 1) < BPS
    ensures MachineInTurn(x, y, rest, feeBps) == 0
  {
    var r, f := Sum(rest), BPS - feeBps;
    if y <= 1 {
      ProductShrinks(r, U64_LIMIT, f, y, 1);
      MulMonotone(f, BPS, U64_LIMIT);
      PiecesAreExact(x, y, rest, feeBps);
      NothingToPay(x, y, rest, feeBps);
    } else {
      HalfOfProduct(r, f, y);
      PiecesAreExact(x, y, rest, feeBps);
      PiecesNeverBeatTheWhole(x, y, rest, feeBps);
      TooSmall(x, y, r, feeBps);
    }
  }

  lemma TooSmall(x: nat, y: nat, a: nat, feeBps: nat)
    requires feeBps <= BPS && 0 < x && 1 <= y && a * (BPS - feeBps) * (y - 1) < BPS
    ensures ExactSwap(x, y, a, feeBps) == 0
  {
    var net := a * (BPS - feeBps);
    NonNegative(a, BPS - feeBps);
    NonNegative(net, y);
    Distribute(net, y - 1, 1);
    QuotientIsLargest(net * y, x * BPS + net, 1);
  }

  lemma {:induction false} EmptyReservePaysNothing(y: U64, amounts: seq<nat>, feeBps: nat)
    requires feeBps <= BPS && Sum(amounts) < U64_LIMIT
    requires y <= 1 || Sum(amounts) <= 1 || (Sum(amounts) - 1) * (BPS - feeBps) * (y - 1) < BPS
    ensures MachineInTurn(0, y, amounts, feeBps) == 0
    decreases |amounts|
  {
    if amounts != [] {
      if amounts[0] == 0 {
        EmptyReservePaysNothing(y, amounts[1..], feeBps);
      } else {
        if 2 <= y {
          ProductShrinks(Sum(amounts[1..]), Sum(amounts) - 1, BPS - feeBps, y - 1, y - 1);
        }
        RevivedPaysNothing(amounts[0], y, amounts[1..], feeBps);
      }
    }
  }

  /** One lamport revives the reserve, and the next piece buys something. */
  lemma RevivedReserveHelps(y: U64, total: nat, feeBps: nat) returns (amounts: seq<nat>)
    requires feeBps <= BPS && 2 <= y && 2 <= total < U64_LIMIT
    requires BPS <= (total - 1) * (BPS - feeBps) * (y - 1)
    ensures Sum(amounts) == total && 0 < MachineInTurn(0, y, amounts, feeBps)
  {
    var f := BPS - feeBps;
    var b := if total - 1 < BPS then total - 1 else BPS;
    var c := total - 1 - b;
    amounts := [1, b, c];
    assert amounts[1..] == [b, c] && [b, c][1..] == [c] && [c][1..] == [];
    assert Sum([c]) == c && Sum([b, c]) == b + c;
    assert MachineInTurn(0, y, amounts, feeBps) == MachineInTurn(1, y, [b, c], feeBps);
    TwoInTurn(1, y, b, c, feeBps);
    SomeFactor(total - 1, f, y - 1);
    SecondPieceBuys(y, b, f);
    assert BPS - f == feeBps;
  }

  lemma SomeFactor(a: nat, f: nat, b: nat)
    requires BPS <= a * f * b
    ensures 1 <= f
  {
  }

  lemma SecondPieceBuys(y: U64, b: nat, f: nat)
    requires 2 <= y && b <= BPS && 1 <= f <= BPS
    requires b == BPS || BPS <= b * f * (y - 1)
    ensures 0 < ConstantProductSwap(1, y, b, BPS - f)
  {
    if b == BPS {
      MulMonotone(1, f, BPS);
      MulMonotone(1, y - 1, BPS * f);
    }
    NonNegative(b, f);
    Distribute(b * f, y - 1, 1);
    ProductShrinks(b, BPS, f, y, U64_LIMIT);
    MulMonotone(f, BPS, BPS);
    MulMonotone(BPS * f, BPS * BPS, U64_LIMIT);
    MachineSwapIsExactIff(1, y, b, BPS - f);
    NonNegative(b * f, y);
    QuotientIsLargest(b * f * y, BPS + b * f, 1);
  }

  // ----- exactly when -----

  /** Enough for a revived reserve to pay one unit for the rest of the trade. */
  predicate RestBuysSomething(y: U64, total: nat, feeBps: nat)
    requires feeBps <= BPS
  {
    2 <= y && 2 <= total && BPS <= (total - 1) * (BPS - feeBps) * (y - 1)
  }

  /**
    No split of a trade pays more than the one swap exactly when its product fits in
    128 bits; against an empty input reserve, exactly when the rest of the trade
    after the first lamport could not buy anything.
   */
  lemma SplittingNeverHelpsIff(x: U64, y: U64, total: nat, feeBps: nat)
    requires feeBps <= BPS && x + total < U64_LIMIT
    ensures SplittingNeverHelps(x, y, total, feeBps)
       <==> if x == 0 then !RestBuysSomething(y, total, feeBps) else total * (BPS - feeBps) * y < U128_LIMIT
  {
    if x == 0 {
      if RestBuysSomething(y, total, feeBps) {
        var amounts := RevivedReserveHelps(y, total, feeBps);
      } else {
        forall amounts: seq<nat> | Sum(amounts) == total
          ensures MachineInTurn(x, y, amounts, feeBps) <= ConstantProductSwap(x, y, total, feeBps)
        {
          EmptyReservePaysNothing(y, amounts, feeBps);
        }
      }
    } else if total * (BPS - feeBps) * y < U128_LIMIT {
      forall amounts: seq<nat> | Sum(amounts) == total
        ensures MachineInTurn(x, y, amounts, feeBps) <= ConstantProductSwap(x, y, total, feeBps)
      {
        PiecesNeverPayMore(x, y, amounts, feeBps);
      }
    } else {
      var amounts := WrappedWholeIsBeaten(x, y, total, feeBps);
    }
  }

  /**
    By this formula alone, as on vault pools, trades of the scanner's size are never
    worth splitting.  The bonding curve's own fee is another matter (`CurveSplits`).
   */
  lemma SmallTradesAreNeverSplit(x: U64, y: U64, trade: nat, feeBps: nat)
    requires feeBps <= BPS && 0 < x && trade <= MAX_TRADE_LAMPORTS && x + trade < U64_LIMIT
    ensures SplittingNeverHelps(x, y, trade, feeBps)
  {
    BuyLegNeverOverflows(y, trade, feeBps);
    SplittingNeverHelpsIff(x, y, trade, feeBps);
  }
}
