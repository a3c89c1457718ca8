/** The contiguous-range booking rules of AbstractReservationManager, on the
    value view of the grid.  Each operation is a check pass over the columns
    `startCol..endCol` (inclusive) of one row, followed by a write pass that
    only runs when the check succeeded. */
module Ranges {
  import opened Results
  import opened Grid

  /** What an operation returned (or raised) and the grid it left behind. */
  datatype Outcome = Outcome(result: Result<bool>, after: Flags)

  /** Every column of `startCol..endCol` exists in the row and is available. */
  predicate AllFree(g: Flags, row: int, startCol: int, endCol: int) {
    forall c :: startCol <= c <= endCol ==> InBounds(g, row, c) && !g[row][c]
  }

  /** Every column of `startCol..endCol` exists in the row and is reserved. */
  predicate AllReserved(g: Flags, row: int, startCol: int, endCol: int) {
    forall c :: startCol <= c <= endCol ==> InBounds(g, row, c) && g[row][c]
  }

  /** areSeatsAvailable: `noneMatch(isReserved)` over the seats fetched with
      getSeat, column by column from `startCol`.  The stream is lazy, so the
      first reserved seat ends it with false before a later column is fetched,
      and the first column outside the grid raises before a later seat is
      looked at.  An empty range is vacuously available. */
  function AreSeatsAvailable(g: Flags, row: int, startCol: int, endCol: int): (r: Result<bool>)
    ensures r == Ok(true) <==> AllFree(g, row, startCol, endCol)
    ensures r.Err? ==> r.error == InvalidSeatSelection
    decreases endCol - startCol
  {
    if startCol > endCol then Ok(true)
    else if !InBounds(g, row, startCol) then Err(InvalidSeatSelection)
    else if g[row][startCol] then Ok(false)
    else AreSeatsAvailable(g, row, startCol + 1, endCol)
  }

  /** areSeatsReserved: `allMatch(isReserved)`, with the same lazy order:
      the first available seat ends it with false, the first column outside
      the grid raises. */
  function AreSeatsReserved(g: Flags, row: int, startCol: int, endCol: int): (r: Result<bool>)
    ensures r == Ok(true) <==> AllReserved(g, row, startCol, endCol)
    ensures r.Err? ==> r.error == InvalidSeatSelection
    decreases endCol - startCol
  {
    if startCol > endCol then Ok(true)
    else if !InBounds(g, row, startCol) then Err(InvalidSeatSelection)
    else if !g[row][startCol] then Ok(false)
    else AreSeatsReserved(g, row, startCol + 1, endCol)
  }

  /** The three outcomes of the availability check: true exactly when the
      whole range exists and is free; false exactly when a reserved seat comes
      before any missing column; an exception exactly when a missing column
      comes first. */
  lemma {:induction false} AvailabilityCases(g: Flags, row: int, startCol: int, endCol: int)
    ensures AreSeatsAvailable(g, row, startCol, endCol) == Ok(true) <==> AllFree(g, row, startCol, endCol)
    ensures AreSeatsAvailable(g, row, startCol, endCol) == Ok(false) <==>
              exists k :: startCol <= k <= endCol && AllFree(g, row, startCol, k - 1) && InBounds(g, row, k) && g[row][k]
    ensures AreSeatsAvailable(g, row, startCol, endCol).Err? <==>
              exists k :: startCol <= k <= endCol && AllFree(g, row, startCol, k - 1) && !InBounds(g, row, k)
    ensures AreSeatsAvailable(g, row, startCol, endCol).Err? ==>
              AreSeatsAvailable(g, row, startCol, endCol).error == InvalidSeatSelection
    decreases endCol - startCol
  {
    if startCol > endCol {
    } else if !InBounds(g, row, startCol) {
      assert AllFree(g, row, startCol, startCol - 1);
    } else if g[row][startCol] {
      assert AllFree(g, row, startCol, startCol - 1);
    } else {
      AvailabilityCases(g, row, startCol + 1, endCol);
      forall m | startCol <= m
        ensures AllFree(g, row, startCol, m) <==> AllFree(g, row, startCol + 1, m)
      {
      }
    }
  }

  /** The three outcomes of the reservation check, symmetric to the above. */
  lemma {:induction false} ReservationCases(g: Flags, row: int, startCol: int, endCol: int)
    ensures AreSeatsReserved(g, row, startCol, endCol) == Ok(true) <==> AllReserved(g, row, startCol, endCol)
    ensures AreSeatsReserved(g, row, startCol, endCol) == Ok(false) <==>
              exists k :: startCol <= k <= endCol && AllReserved(g, row, startCol, k - 1) && InBounds(g, row, k) && !g[row][k]
    ensures AreSeatsReserved(g, row, startCol, endCol).Err? <==>
              exists k :: startCol <= k <= endCol && AllReserved(g, row, startCol, k - 1) && !InBounds(g, row, k)
    ensures AreSeatsReserved(g, row, startCol, endCol).Err? ==>
              AreSeatsReserved(g, row, startCol, endCol).error == InvalidSeatSelection
    decreases endCol - startCol
  {
    if startCol > endCol {
    } else if !InBounds(g, row, startCol) {
      assert AllReserved(g, row, startCol, startCol - 1);
    } else if !g[row][startCol] {
      assert AllReserved(g, row, startCol, startCol - 1);
    } else {
      ReservationCases(g, row, startCol + 1, endCol);
      forall m | startCol <= m
        ensures AllReserved(g, row, startCol, m) <==> AllReserved(g, row, startCol + 1, m)
      {
      }
    }
  }

  /** The write pass: every seat of `startCol..endCol` in the row set to `v`,
      every other seat as it was. */
  function Fill(g: Flags, row: int, startCol: int, endCol: int, v: bool): (h: Flags)
    ensures SameShape(h, g)
    ensures forall i, j :: InBounds(g, i, j) ==>
              h[i][j] == if i == row && startCol <= j <= endCol then v else g[i][j]
    ensures forall c :: startCol <= c <= endCol && InBounds(g, row, c) ==> InBounds(h, row, c) && h[row][c] == v
  {
    seq(|g|, i requires 0 <= i < |g| =>
      if i == row then seq(|g[i]|, j requires 0 <= j < |g[i]| => if startCol <= j <= endCol then v else g[i][j])
      else g[i])
  }

  /** reserveSeats: all or nothing.  It succeeds exactly when the whole range
      exists and is free, and then reserves exactly that range; otherwise
      (false, or an exception from the check pass) no seat changes. */
  function Reserve(g: Flags, row: int, startCol: int, endCol: int): (o: Outcome)
    ensures o.result == Ok(true) <==> AllFree(g, row, startCol, endCol)
    ensures o.result.Err? ==> o.result.error == InvalidSeatSelection
    ensures o.result != Ok(true) ==> o.after == g
    ensures SameShape(o.after, g)
    ensures o.result == Ok(true) ==> AllReserved(o.after, row, startCol, endCol)
    ensures forall i, j :: InBounds(g, i, j) && !(i == row && startCol <= j <= endCol) ==> o.after[i][j] == g[i][j]
  {
    AvailabilityCases(g, row, startCol, endCol);
    var check := AreSeatsAvailable(g, row, startCol, endCol);
    Outcome(check, if check == Ok(true) then Fill(g, row, startCol, endCol, true) else g)
  }

  /** cancelSeats: all or nothing.  It succeeds exactly when the whole range
      exists and is reserved, and then frees exactly that range; otherwise no
      seat changes. */
  function Cancel(g: Flags, row: int, startCol: int, endCol: int): (o: Outcome)
    ensures o.result == Ok(true) <==> AllReserved(g, row, startCol, endCol)
    ensures o.result.Err? ==> o.result.error == InvalidSeatSelection
    ensures o.result != Ok(true) ==> o.after == g
    ensures SameShape(o.after, g)
    ensures o.result == Ok(true) ==> AllFree(o.after, row, startCol, endCol)
    ensures forall i, j :: InBounds(g, i, j) && !(i == row && startCol <= j <= endCol) ==> o.after[i][j] == g[i][j]
  {
    ReservationCases(g, row, startCol, endCol);
    var check := AreSeatsReserved(g, row, startCol, endCol);
    Outcome(check, if check == Ok(true) then Fill(g, row, startCol, endCol, false) else g)
  }

  /** An empty range (`startCol > endCol`) is accepted by both operations
      without looking at the grid, even for a row that does not exist, and
      changes nothing. */
  lemma EmptyRange(g: Flags, row: int, startCol: int, endCol: int)
    requires startCol > endCol
    ensures Reserve(g, row, startCol, endCol) == Outcome(Ok(true), g)
    ensures Cancel(g, row, startCol, endCol) == Outcome(Ok(true), g)
  {
    forall i | 0 <= i < |g| ensures Reserve(g, row, startCol, endCol).after[i] == g[i] {}
    forall i | 0 <= i < |g| ensures Cancel(g, row, startCol, endCol).after[i] == g[i] {}
  }

  /** Reserving a non-empty range twice: the second call finds the first
      seat taken, returns false and leaves the grid as the first call left it. */
  lemma ReserveTwice(g: Flags, row: int, startCol: int, endCol: int)
    requires Reserve(g, row, startCol, endCol).result == Ok(true)
    requires startCol <= endCol
    ensures var g1 := Reserve(g, row, startCol, endCol).after;
            Reserve(g1, row, startCol, endCol) == Outcome(Ok(false), g1)
  {
    var g1 := Reserve(g, row, startCol, endCol).after;
    AvailabilityCases(g1, row, startCol, endCol);
    assert AllFree(g1, row, startCol, startCol - 1);
  }

  /** Cancelling a non-empty range twice: the second call returns false and
      changes nothing. */
  lemma CancelTwice(g: Flags, row: int, startCol: int, endCol: int)
    requires Cancel(g, row, startCol, endCol).result == Ok(true)
    requires startCol <= endCol
    ensures var g1 := Cancel(g, row, startCol, endCol).after;
            Cancel(g1, row, startCol, endCol) == Outcome(Ok(false), g1)
  {
    var g1 := Cancel(g, row, startCol, endCol).after;
    ReservationCases(g1, row, startCol, endCol);
    assert AllReserved(g1, row, startCol, startCol - 1);
  }

  /** A successful reservation followed by a cancellation of the same range
      succeeds and restores the grid exactly. */
  lemma ReserveThenCancel(g: Flags, row: int, startCol: int, endCol: int)
    requires Reserve(g, row, startCol, endCol).result == Ok(true)
    ensures var g1 := Reserve(g, row, startCol, endCol).after;
            Cancel(g1, row, startCol, endCol) == Outcome(Ok(true), g)
  {
    var g1 := Reserve(g, row, startCol, endCol).after;
    var g2 := Cancel(g1, row, startCol, endCol).after;
    assert AllReserved(g1, row, startCol, endCol);
    forall i | 0 <= i < |g| ensures g2[i] == g[i] {
      assert forall j :: 0 <= j < |g[i]| ==> g2[i][j] == g[i][j];
    }
  }

  /** A successful cancellation followed by a reservation of the same range
      succeeds and restores the grid exactly. */
  lemma CancelThenReserve(g: Flags, row: int, startCol: int, endCol: int)
    requires Cancel(g, row, startCol, endCol).result == Ok(true)
    ensures var g1 := Cancel(g, row, startCol, endCol).after;
            Reserve(g1, row, startCol, endCol) == Outcome(Ok(true), g)
  {
    var g1 := Cancel(g, row, startCol, endCol).after;
    var g2 := Reserve(g1, row, startCol, endCol).after;
    assert AllFree(g1, row, startCol, endCol);
    forall i | 0 <= i < |g| ensures g2[i] == g[i] {
      assert forall j :: 0 <= j < |g[i]| ==> g2[i][j] == g[i][j];
    }
  }

  /** Every range inside a chart of free seats is free. */
  lemma BlankRangeIsFree(rows: nat, cols: nat, row: int, startCol: int, endCol: int)
    requires 0 <= row < rows && 0 <= startCol && endCol < cols
    ensures AllFree(Blank(rows, cols), row, startCol, endCol)
  {
  }
}
