/**
  Searching the pairs (buy, sell) of a square grid in lexicographic order for the
  first pair of maximal net profit, or for the first profitable one.  Nothing
  here depends on what a pair means.
 */
module GridSearch {
  import opened Wrappers
  import opened MachineInts

  type Pair = (int, int)

  predicate Precedes(p: Pair, q: Pair) {
    p.0 < q.0 || (p.0 == q.0 && p.1 < q.1)
  }

  datatype Grid = Grid(size: nat, ok: Pair -> bool, net: Pair -> int)
  {
    ghost predicate Valid() {
      forall p | ok(p) :: 0 <= p.0 < size && 0 <= p.1 < size
    }

    /** The first pair, in visiting order, among those of maximal net profit. */
    ghost predicate IsBest(p: Pair) {
      ok(p) && forall q | ok(q) :: net(q) < net(p) || (net(q) == net(p) && !Precedes(q, p))
    }

    /** The first pair, in visiting order, that nets a profit. */
    ghost predicate IsFirstProfitable(p: Pair) {
      ok(p) && 0 < net(p) && forall q | ok(q) && Precedes(q, p) :: net(q) <= 0
    }

    /** What an exhaustive search finds. */
    ghost predicate BestFound(found: Option<Pair>) {
      match found
      case Some(p) => IsBest(p)
      case None => forall q :: !ok(q)
    }

    /** What a search that stops at the first profit finds. */
    ghost predicate EarlyFound(found: Option<Pair>) {
      (found.Some? && IsFirstProfitable(found.value)) || (BestFound(found) && forall q | ok(q) :: net(q) <= 0)
    }

    // ----- a search under way -----

    /** `best` is the best pair before `here`. */
    ghost predicate BestBefore(best: Option<Pair>, here: Pair) {
      match best
      case None => forall q | ok(q) :: !Precedes(q, here)
      case Some(p) =>
        && ok(p) && Precedes(p, here)
        && forall q | ok(q) && Precedes(q, here) :: net(q) < net(p) || (net(q) == net(p) && !Precedes(q, p))
    }

    ghost predicate NoProfitBefore(here: Pair) {
      forall q | ok(q) && Precedes(q, here) :: net(q) <= 0
    }

    /** The update a search makes with a pair that is ok. */
    function Better(best: Option<Pair>, p: Pair): Option<Pair> {
      if best.None? || net(p) > net(best.value) then Some(p) else best
    }
  }

  lemma Visit(g: Grid, best: Option<Pair>, here: Pair)
    requires g.BestBefore(best, here)
    ensures g.BestBefore(if g.ok(here) then g.Better(best, here) else best, (here.0, here.1 + 1))
    ensures g.NoProfitBefore(here) && (g.ok(here) ==> g.net(here) <= 0) ==> g.NoProfitBefore((here.0, here.1 + 1))
  {
  }

  /** Moving on to row `next` loses nothing when every row in between is empty. */
  lemma NextRow(g: Grid, best: Option<Pair>, row: int, next: int)
    requires g.Valid() && row < next
    requires g.BestBefore(best, (row, g.size))
    requires forall q | g.ok(q) :: !(row < q.0 < next)
    ensures g.BestBefore(best, (next, 0))
    ensures g.NoProfitBefore((row, g.size)) ==> g.NoProfitBefore((next, 0))
  {
  }

  lemma FirstRow(g: Grid, row: int)
    requires g.Valid()
    requires forall q | g.ok(q) :: row <= q.0
    ensures g.BestBefore(None, (row, 0)) && g.NoProfitBefore((row, 0))
  {
  }

  lemma LastRow(g: Grid, best: Option<Pair>)
    requires g.Valid() && g.BestBefore(best, (g.size, 0))
    ensures g.BestFound(best)
    ensures g.NoProfitBefore((g.size, 0)) ==> g.EarlyFound(best)
  {
    assert forall q | g.ok(q) :: Precedes(q, (g.size, 0));
  }

  // ----- the rows worth visiting -----

  datatype Entry = Entry(row: nat, quote: U64)

  /** `rows` lists, in order, exactly the positions below `upto` with a positive quote. */
  ghost predicate Quoted(rows: seq<Entry>, quotes: seq<U64>, upto: nat) {
    && upto <= |quotes|
    && (forall k | 0 <= k < |rows| :: rows[k].row < upto && rows[k].quote == quotes[rows[k].row] && 0 < rows[k].quote)
    && (forall j, k | 0 <= j < k < |rows| :: rows[j].row < rows[k].row)
    && (forall i | 0 <= i < upto && 0 < quotes[i] :: exists k :: 0 <= k < |rows| && rows[k].row == i)
  }

  /** The row of round k; after the last round, the end of the grid. */
  function Row(rows: seq<Entry>, k: nat, size: nat): nat {
    if k < |rows| then rows[k].row else size
  }

  lemma AppendRow(rows: seq<Entry>, quotes: seq<U64>, i: nat, quote: U64)
    requires i < |quotes| && quote == quotes[i] && Quoted(rows, quotes, i)
    ensures Quoted(if 0 < quote then rows + [Entry(i, quote)] else rows, quotes, i + 1)
  {
    var extended := if 0 < quote then rows + [Entry(i, quote)] else rows;
    forall j | 0 <= j < i + 1 && 0 < quotes[j]
      ensures exists k :: 0 <= k < |extended| && extended[k].row == j
    {
      if j < i {
        var k :| 0 <= k < |rows| && rows[k].row == j;
        assert extended[k].row == j;
      } else {
        assert extended[|rows|].row == j;
      }
    }
  }

  /** The positions below `upto` with a positive quote, in order. */
  function Rows(quotes: seq<U64>, upto: nat): seq<Entry>
    requires upto <= |quotes|
  {
    if upto == 0 then []
    else
      var i := upto - 1;
      if 0 < quotes[i] then Rows(quotes, i) + [Entry(i, quotes[i])] else Rows(quotes, i)
  }

  lemma {:induction false} RowsAreQuoted(quotes: seq<U64>, upto: nat)
    requires upto <= |quotes|
    ensures Quoted(Rows(quotes, upto), quotes, upto)
  {
    if 0 < upto {
      RowsAreQuoted(quotes, upto - 1);
      AppendRow(Rows(quotes, upto - 1), quotes, upto - 1, quotes[upto - 1]);
    }
  }

  /** Rows before the first, or between two rounds, have an empty quote. */
  lemma RowsBetweenAreEmpty(rows: seq<Entry>, quotes: seq<U64>, k: nat, i: nat)
    requires Quoted(rows, quotes, |quotes|) && k <= |rows|
    requires i < |quotes| && i < Row(rows, k, |quotes|) && (0 < k ==> rows[k - 1].row < i)
    ensures quotes[i] == 0
  {
    if 0 < quotes[i] {
      var j := RowOf(rows, quotes, i);
      assert false;
    }
  }

  lemma RowOf(rows: seq<Entry>, quotes: seq<U64>, i: nat) returns (k: nat)
    requires Quoted(rows, quotes, |quotes|) && i < |quotes| && 0 < quotes[i]
    ensures k < |rows| && rows[k].row == i
  {
    k :| 0 <= k < |rows| && rows[k].row == i;
  }

  // ----- the two searches -----

  /**
    Stopping at the first profit against searching everything: both find
    something or neither does; both find a profit or neither does; without a
    profit they find the same pair, with one the early search finds the first.
   */
  lemma EarlyRefinesBest(g: Grid, early: Option<Pair>, best: Option<Pair>)
    requires g.EarlyFound(early) && g.BestFound(best)
    ensures early.Some? <==> best.Some?
    ensures best.Some? ==>
              && (0 < g.net(early.value) <==> 0 < g.net(best.value))
              && g.net(early.value) <= g.net(best.value)
              && (g.net(best.value) <= 0 ==> early == best)
              && (0 < g.net(best.value) ==> g.IsFirstProfitable(early.value))
  {
    if early.Some? && best.Some? && g.BestFound(early) {
      var p, q := early.value, best.value;
      assert !Precedes(p, q) && !Precedes(q, p);
    }
  }
}
