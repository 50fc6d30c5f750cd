/** Sequences of ledger operations on one product row, as the inventory
    controllers apply them: an operation whose guard fails leaves the row as it
    was. The tally counts the units sold and replenished along the way, so that
    the ledger's bookkeeping can be compared with what was sold. */
module LedgerRuns {
  import opened InventoryControllers

  /** One successful-or-refused call of a controller, by its integral amount. */
  datatype StockOp = Reserve(n: int) | Sell(n: int) | Replenish(n: int)

  datatype Tally = Tally(row: Row, sold: int, replenished: int)

  /** One operation. `intended` selects the sale that consumes stock instead of
      the controller's. */
  function Step(t: Tally, op: StockOp, intended: bool): (t': Tally)
    requires Consistent(t.row)
    ensures Consistent(t'.row)
  {
    match op
    case Reserve(n) =>
      if 0 < n <= Available(t.row) then t.(row := ReserveRow(t.row, n)) else t
    case Sell(n) =>
      if 0 < n <= t.row.reserved then
        Tally(if intended then SellRowIntended(t.row, n) else SellRow(t.row, n), t.sold + n, t.replenished)
      else t
    case Replenish(n) =>
      if 0 < n then Tally(ReplenishRow(t.row, n), t.sold, t.replenished + n) else t
  }

  /** Operations applied in order. The ledger invariant `0 <= reserved <= quantity`
      holds after every prefix. */
  function Run(t: Tally, ops: seq<StockOp>, intended: bool): (t': Tally)
    requires Consistent(t.row)
    ensures Consistent(t'.row)
    decreases |ops|
  {
    if ops == [] then t else Run(Step(t, ops[0], intended), ops[1..], intended)
  }

  /** With reservations alone, `quantity` never moves and the units reserved
      never exceed what was available at the start: no reservation overcommits. */
  lemma {:induction false} ReservationsNeverOvercommit(t: Tally, ops: seq<StockOp>, intended: bool)
    requires Consistent(t.row)
    requires forall i :: 0 <= i < |ops| ==> ops[i].Reserve?
    ensures Run(t, ops, intended).row.quantity == t.row.quantity
    ensures Run(t, ops, intended).row.reserved - t.row.reserved <= Available(t.row)
    decreases |ops|
  {
    if ops != [] {
      var t1 := Step(t, ops[0], intended);
      assert t1.row.quantity == t.row.quantity && t1.row.reserved >= t.row.reserved;
      ReservationsNeverOvercommit(t1, ops[1..], intended);
    }
  }

  /** Reserving on an exhausted row is refused and changes nothing. */
  lemma ExhaustedRowRefusesReservation(t: Tally, n: int, intended: bool)
    requires Consistent(t.row) && Available(t.row) == 0
    ensures Step(t, Reserve(n), intended) == t
  {
  }

  /** With sales that consume stock, `quantity + sold - replenished` is the same
      before and after any sequence of operations. */
  lemma {:induction false} IntendedRunConservesStock(t: Tally, ops: seq<StockOp>)
    requires Consistent(t.row)
    ensures var t' := Run(t, ops, true);
            t'.row.quantity + t'.sold - t'.replenished == t.row.quantity + t.sold - t.replenished
    decreases |ops|
  {
    if ops != [] {
      IntendedRunConservesStock(Step(t, ops[0], true), ops[1..]);
    }
  }

  /** With sales that consume stock, no sequence of operations sells more than
      the units that existed at the start plus those replenished since. */
  lemma IntendedNeverOversells(row: Row, ops: seq<StockOp>)
    requires Consistent(row)
    ensures var t' := Run(Tally(row, 0, 0), ops, true);
            t'.sold <= row.quantity + t'.replenished
  {
    IntendedRunConservesStock(Tally(row, 0, 0), ops);
  }

  /** Running a sequence that starts with `op` is running `op`, then the rest. */
  lemma RunFirst(t: Tally, op: StockOp, rest: seq<StockOp>, intended: bool)
    requires Consistent(t.row)
    ensures Run(t, [op] + rest, intended) == Run(Step(t, op, intended), rest, intended)
  {
    assert ([op] + rest)[1..] == rest;
  }

  /** The controller's sale leaves `quantity` alone, so the `n` units on hand
      can be reserved and sold twice over with nothing replenished: `2 * n` units
      sold out of `n`. */
  lemma AsWrittenOversells(n: int)
    requires n > 0
    ensures var t' := Run(Tally(Row(n, 0), 0, 0), [Reserve(n), Sell(n), Reserve(n), Sell(n)], false);
            t' == Tally(Row(n, 0), 2 * n, 0) && t'.sold > n + t'.replenished
  {
    var t0 := Tally(Row(n, 0), 0, 0);
    var t1 := Step(t0, Reserve(n), false);
    var t2 := Step(t1, Sell(n), false);
    var t3 := Step(t2, Reserve(n), false);
    var t4 := Step(t3, Sell(n), false);
    assert t4 == Tally(Row(n, 0), 2 * n, 0);
    RunFirst(t0, Reserve(n), [Sell(n), Reserve(n), Sell(n)], false);
    RunFirst(t1, Sell(n), [Reserve(n), Sell(n)], false);
    RunFirst(t2, Reserve(n), [Sell(n)], false);
    RunFirst(t3, Sell(n), [], false);
    assert [Reserve(n)] + [Sell(n), Reserve(n), Sell(n)] == [Reserve(n), Sell(n), Reserve(n), Sell(n)];
    assert [Sell(n)] + [Reserve(n), Sell(n)] == [Sell(n), Reserve(n), Sell(n)];
    assert [Reserve(n)] + [Sell(n)] == [Reserve(n), Sell(n)];
    assert [Sell(n)] + [] == [Sell(n)];
  }
}
