/** Value results about whole sequences of swaps against one pool. */
module PoolRuns {
  import opened Amm

  datatype Reserves = Reserves(x: nat, y: nat)

  /** One swap: `xIn` says which reserve receives `amount`; `paid` leaves the other. */
  datatype Swap = Swap(xIn: bool, amount: nat, feeBps: nat, paid: nat)

  /** The pool pays no more than the formula; the program pays exactly or (on wrap-around) less. */
  predicate Honest(r: Reserves, s: Swap) {
    && s.feeBps <= BPS
    && s.paid <= if s.xIn then ExactSwap(r.x, r.y, s.amount, s.feeBps) else ExactSwap(r.y, r.x, s.amount, s.feeBps)
  }

  function After(r: Reserves, s: Swap): Reserves
    requires Honest(r, s)
  {
    SwapBound(r.x, r.y, s.amount, s.feeBps);
    SwapBound(r.y, r.x, s.amount, s.feeBps);
    if s.xIn then Reserves(r.x + s.amount, r.y - s.paid) else Reserves(r.x - s.paid, r.y + s.amount)
  }

  predicate HonestRun(r: Reserves, run: seq<Swap>)
    decreases |run|
  {
    run == [] || (Honest(r, run[0]) && HonestRun(After(r, run[0]), run[1..]))
  }

  function Final(r: Reserves, run: seq<Swap>): Reserves
    requires HonestRun(r, run)
    decreases |run|
  {
    if run == [] then r else Final(After(r, run[0]), run[1..])
  }

  /** u and v are the parts of BPS * a that count and do not count as deposited. */
  lemma PayoutWithoutFee(x: nat, y: nat, a: nat, u: nat, v: nat, paid: nat)
    requires u + v == BPS * a && paid <= y
    requires paid * (x * BPS + u) <= u * y
    ensures paid * (x + a) <= a * y
  {
    MulMonotone(paid, y, v);
    Distribute(paid, x * BPS + u, v);
    Distribute(y, u, v);
    assert x * BPS + u + v == BPS * (x + a);
    assert paid * (BPS * (x + a)) == BPS * (paid * (x + a));
    assert y * (BPS * a) == BPS * (a * y);
  }

  lemma ProductGrows(x: nat, y: nat, a: nat, feeBps: nat, paid: nat)
    requires feeBps <= BPS && paid <= ExactSwap(x, y, a, feeBps)
    ensures paid <= y && x * y <= (x + a) * (y - paid)
  {
    SwapBound(x, y, a, feeBps);
    var u, v, out := a * (BPS - feeBps), a * feeBps, ExactSwap(x, y, a, feeBps);
    NonNegative(a, BPS - feeBps);
    NonNegative(a, feeBps);
    Distribute(a, BPS - feeBps, feeBps);
    MulMonotone(paid, out, x * BPS + u);
    PayoutWithoutFee(x, y, a, u, v, paid);
    ProductAfter(x, y, a, paid);
  }

  lemma ProductAfter(x: nat, y: nat, a: nat, paid: nat)
    requires paid <= y && paid * (x + a) <= a * y
    ensures x * y <= (x + a) * (y - paid)
  {
    Distribute(x + a, y - paid, paid);
    Distribute(y, x, a);
  }

  /**
    Over any run of honest swaps the product of the reserves never falls, and
    a reserve that is positive stays positive.
   */
  lemma {:induction false} ProductNeverFalls(r: Reserves, run: seq<Swap>)
    requires HonestRun(r, run)
    decreases |run|
    ensures var e := Final(r, run);
            && r.x * r.y <= e.x * e.y
            && (0 < r.x ==> 0 < e.x) && (0 < r.y ==> 0 < e.y)
            && (e.x == 0 ==> r.y <= e.y) && (e.y == 0 ==> r.x <= e.x)
  {
    if run != [] {
      OneSwap(r, run[0]);
      ProductNeverFalls(After(r, run[0]), run[1..]);
    }
  }

  lemma OneSwap(r: Reserves, s: Swap)
    requires Honest(r, s)
    ensures var e := After(r, s);
            && r.x * r.y <= e.x * e.y
            && (0 < r.x ==> 0 < e.x) && (0 < r.y ==> 0 < e.y)
            && (e.x == 0 ==> r.y <= e.y) && (e.y == 0 ==> r.x <= e.x)
  {
    if s.xIn {
      ProductGrows(r.x, r.y, s.amount, s.feeBps, s.paid);
      SwapBound(r.x, r.y, s.amount, s.feeBps);
    } else {
      ProductGrows(r.y, r.x, s.amount, s.feeBps, s.paid);
      SwapBound(r.y, r.x, s.amount, s.feeBps);
    }
  }

  /** No run leaves the pool with no more of either asset and strictly less of one. */
  lemma NoRunExtractsValue(r: Reserves, run: seq<Swap>)
    requires HonestRun(r, run)
    ensures var e := Final(r, run); e.x <= r.x && e.y <= r.y ==> e == r
  {
    ProductNeverFalls(r, run);
    var e := Final(r, run);
    if 0 < e.x <= r.x && 0 < e.y <= r.y {
      SmallerProduct(e.x, e.y, r.x, r.y);
    }
  }

  lemma SmallerProduct(a: nat, b: nat, x: nat, y: nat)
    requires 0 < a <= x && 0 < b <= y && x * y <= a * b
    ensures a == x && b == y
  {
    MulMonotone(a, x, b);
    MulMonotone(b, y, x);
    if a < x {
      MulMonotone(a + 1, x, b);
      Distribute(b, a, 1);
    }
    if b < y {
      MulMonotone(b + 1, y, x);
      Distribute(x, b, 1);
    }
  }

  // ----- splitting one trade into several -----

  /** Tokens received when `amounts` are swapped one after the other on the moving reserves. */
  function SwapInTurn(x: nat, y: nat, amounts: seq<nat>, feeBps: nat): nat
    requires feeBps <= BPS
    decreases |amounts|
  {
    if amounts == [] then 0
    else
      var out := ExactSwap(x, y, amounts[0], feeBps);
      SwapBound(x, y, amounts[0], feeBps);
      out + SwapInTurn(x + amounts[0], y - out, amounts[1..], feeBps)
  }

  function Sum(amounts: seq<nat>): nat {
    if amounts == [] then 0 else amounts[0] + Sum(amounts[1..])
  }

  ghost predicate FormulaNeverHelps(x: nat, y: nat, feeBps: nat)
    requires feeBps <= BPS
  {
    forall amounts: seq<nat> :: SwapInTurn(x, y, amounts, feeBps) <= ExactSwap(x, y, Sum(amounts), feeBps)
  }

  /** The two payouts over the common denominator d = cap + n1 + n2. */
  lemma CommonDenominator(y: nat, cap: nat, n1: nat, n2: nat, o1: nat, o2: nat)
    requires o1 <= y && o1 * (cap + n1) <= n1 * y
    requires o2 * (cap + n1 + n2) <= n2 * (y - o1)
    ensures (o1 + o2) * (cap + n1 + n2) <= (n1 + n2) * y
  {
    var d := cap + n1 + n2;
    Distribute(d, o1, o2);
    Distribute(o1, cap + n1, n2);
    Distribute(n2, y - o1, o1);
    Distribute(y, n1, n2);
  }

  lemma TwoPieces(x: nat, y: nat, a1: nat, a2: nat, feeBps: nat)
    requires feeBps <= BPS && 0 < x && 0 < y
    ensures var o1 := ExactSwap(x, y, a1, feeBps);
            && o1 < y
            && o1 + ExactSwap(x + a1, y - o1, a2, feeBps) <= ExactSwap(x, y, a1 + a2, feeBps)
  {
    var f, o1 := BPS - feeBps, ExactSwap(x, y, a1, feeBps);
    SwapBound(x, y, a1, feeBps);
    var o2 := ExactSwap(x + a1, y - o1, a2, feeBps);
    SwapBound(x + a1, y - o1, a2, feeBps);
    var n1, n2, d := a1 * f, a2 * f, x * BPS + a1 * f + a2 * f;
    NonNegative(a1, f);
    NonNegative(a2, f);
    // The second piece meets a reserve of at least x * BPS + n1 after fees.
    MulMonotone(f, BPS, a1);
    MulMonotone(d, (x + a1) * BPS + n2, o2);
    CommonDenominator(y, x * BPS, n1, n2, o1, o2);
    Distribute(f, a1, a2);
    PayoutIsBounded(x, y, a1 + a2, feeBps, o1 + o2, n1 + n2);
  }

  lemma PayoutIsBounded(x: nat, y: nat, a: nat, feeBps: nat, p: nat, net: nat)
    requires feeBps <= BPS && 0 < x && 0 < y && net == a * (BPS - feeBps)
    requires p * (x * BPS + net) <= net * y
    ensures p <= ExactSwap(x, y, a, feeBps)
  {
    NonNegative(net, y);
    QuotientIsLargest(net * y, x * BPS + net, p);
    if a == 0 {
      assert net == 0;
      CancelFactor(p, 0, x * BPS);
    }
  }

  lemma {:induction false} PiecesNeverBeatTheWhole(x: nat, y: nat, amounts: seq<nat>, feeBps: nat)
    requires feeBps <= BPS && 0 < x && 0 < y
    ensures SwapInTurn(x, y, amounts, feeBps) <= ExactSwap(x, y, Sum(amounts), feeBps)
    decreases |amounts|
  {
    if amounts != [] {
      var o1 := ExactSwap(x, y, amounts[0], feeBps);
      TwoPieces(x, y, amounts[0], Sum(amounts[1..]), feeBps);
      PiecesNeverBeatTheWhole(x + amounts[0], y - o1, amounts[1..], feeBps);
    }
  }

  lemma {:induction false} NothingToPay(x: nat, y: nat, amounts: seq<nat>, feeBps: nat)
    requires feeBps <= BPS && (y <= 1 || feeBps == BPS)
    ensures SwapInTurn(x, y, amounts, feeBps) == 0
    decreases |amounts|
  {
    if amounts != [] {
      SwapBound(x, y, amounts[0], feeBps);
      if feeBps == BPS {
        assert amounts[0] * (BPS - feeBps) == 0;
        assert ExactSwap(x, y, amounts[0], feeBps) == 0 by {
          if x != 0 && y != 0 && amounts[0] != 0 {
            QuotientIsLargest(0, x * BPS, 1);
          }
        }
      }
      NothingToPay(x + amounts[0], y, amounts[1..], feeBps);
    }
  }

  /** Against an empty input reserve the first piece buys nothing but revives the pool. */
  lemma EmptyReserveRevived(y: nat, feeBps: nat)
    requires feeBps < BPS && 2 <= y
    ensures SwapInTurn(0, y, [1, BPS], feeBps) > ExactSwap(0, y, Sum([1, BPS]), feeBps)
  {
    var f, pieces: seq<nat> := BPS - feeBps, [1, BPS];
    var out := ExactSwap(1, y, BPS, feeBps);
    assert 1 <= out by {
      assert BPS + BPS * f <= BPS * f * y by {
        MulMonotone(2, y, BPS * f);
      }
      QuotientIsLargest(BPS * f * y, BPS + BPS * f, 1);
    }
    assert pieces[1..] == [BPS] && pieces[1..][1..] == [];
    assert SwapInTurn(1, y, [BPS], feeBps) == out + SwapInTurn(1 + BPS, y - out, [], feeBps);
    assert SwapInTurn(0, y, pieces, feeBps) == SwapInTurn(1, y, pieces[1..], feeBps);
  }

  /**
    By the formula, splitting a trade never helps, however many pieces, exactly when
    the input reserve is not empty (or the pool has nothing to pay, or the fee takes all).
   */
  lemma FormulaNeverHelpsIff(x: nat, y: nat, feeBps: nat)
    requires feeBps <= BPS
    ensures FormulaNeverHelps(x, y, feeBps) <==> 0 < x || y <= 1 || feeBps == BPS
  {
    if 0 < x && 0 < y {
      forall amounts: seq<nat> {
        PiecesNeverBeatTheWhole(x, y, amounts, feeBps);
      }
    } else if y <= 1 || feeBps == BPS {
      forall amounts: seq<nat> {
        NothingToPay(x, y, amounts, feeBps);
      }
    } else {
      EmptyReserveRevived(y, feeBps);
    }
  }
}
