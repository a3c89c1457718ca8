/** The reservation manager and the actions it dispatches
    (AbstractReservationManager.java, ReservationManager.java, Action.java).
    The abstract base class and its one concrete subclass are a single class
    here; the lock the subclass takes around `execute` is not modelled. */
module Reservations {
  import opened Results
  import opened Seats
  import opened FlightSeating
  import opened Commands
  import Grid
  import Ranges

  class ReservationManager {
    /** The grid handed to the constructor: shared with the caller, not copied. */
    const flightSeats: FlightSeats

    ghost predicate Valid() {
      flightSeats.Valid()
    }

    /** Keeps the very FlightSeats object it is given. */
    constructor (flightSeats: FlightSeats)
      ensures this.flightSeats == flightSeats
    {
      this.flightSeats := flightSeats;
    }

    /** reserveSeats: the availability check over the whole range, and only if
        it returns true, the loop that reserves each seat of the range through
        getSeat (`ReserveEach`).  Result and new chart are those of
        `Ranges.Reserve`; an exception from the check leaves every seat as it was. */
    method ReserveSeats(row: int, startCol: int, endCol: int) returns (r: Result<bool>)
      requires Valid()
      modifies flightSeats.Cells()
      ensures r == Ranges.Reserve(old(flightSeats.Snapshot()), row, startCol, endCol).result
      ensures flightSeats.Snapshot() == Ranges.Reserve(old(flightSeats.Snapshot()), row, startCol, endCol).after
    {
      var available := Ranges.AreSeatsAvailable(flightSeats.Snapshot(), row, startCol, endCol);
      if available.Err? {
        return Err(available.error);
      }
      if !available.value {
        return Ok(false);
      }
      assert forall c :: startCol <= c <= endCol ==> Grid.InBounds(flightSeats.Snapshot(), row, c) by {
        Ranges.AvailabilityCases(flightSeats.Snapshot(), row, startCol, endCol);
      }
      ReserveEach(row, startCol, endCol);
      return Ok(true);
    }

    /** The write pass of reserveSeats, reached only once every column of the
        range is known to exist: reserves each seat of the range in turn. */
    method ReserveEach(row: int, startCol: int, endCol: int)
      requires Valid()
      requires forall c :: startCol <= c <= endCol ==> Grid.InBounds(flightSeats.Snapshot(), row, c)
      modifies flightSeats.Cells()
      ensures flightSeats.Snapshot() == Ranges.Fill(old(flightSeats.Snapshot()), row, startCol, endCol, true)
    {
      ghost var before := flightSeats.Snapshot();
      var i := startCol;
      while i <= endCol
        invariant i == startCol || startCol < i <= endCol + 1
        invariant 0 <= row < |flightSeats.seats| ==> forall c :: 0 <= c < |flightSeats.seats[row]| ==>
                    flightSeats.seats[row][c].reserved == if startCol <= c < i then true else before[row][c]
        invariant forall rw, c :: 0 <= rw < |flightSeats.seats| && rw != row && 0 <= c < |flightSeats.seats[rw]| ==>
                    flightSeats.seats[rw][c].reserved == before[rw][c]
      {
        assert Grid.InBounds(before, row, i);
        var seat := flightSeats.GetSeat(row, i).value;
        seat.Reserve();
        i := i + 1;
      }
      flightSeats.SnapshotIs(Ranges.Fill(before, row, startCol, endCol, true));
    }

    /** cancelSeats: the reservation check over the whole range, and only if
        it returns true, the loop that cancels each seat of the range
        (`CancelEach`).  Result and new chart are those of `Ranges.Cancel`. */
    method CancelSeats(row: int, startCol: int, endCol: int) returns (r: Result<bool>)
      requires Valid()
      modifies flightSeats.Cells()
      ensures r == Ranges.Cancel(old(flightSeats.Snapshot()), row, startCol, endCol).result
      ensures flightSeats.Snapshot() == Ranges.Cancel(old(flightSeats.Snapshot()), row, startCol, endCol).after
    {
      var reserved := Ranges.AreSeatsReserved(flightSeats.Snapshot(), row, startCol, endCol);
      if reserved.Err? {
        return Err(reserved.error);
      }
      if !reserved.value {
        return Ok(false);
      }
      assert forall c :: startCol <= c <= endCol ==> Grid.InBounds(flightSeats.Snapshot(), row, c) by {
        Ranges.ReservationCases(flightSeats.Snapshot(), row, startCol, endCol);
      }
      CancelEach(row, startCol, endCol);
      return Ok(true);
    }

    /** The write pass of cancelSeats, reached only once every column of the
        range is known to exist: cancels each seat of the range in turn. */
    method CancelEach(row: int, startCol: int, endCol: int)
      requires Valid()
      requires forall c :: startCol <= c <= endCol ==> Grid.InBounds(flightSeats.Snapshot(), row, c)
      modifies flightSeats.Cells()
      ensures flightSeats.Snapshot() == Ranges.Fill(old(flightSeats.Snapshot()), row, startCol, endCol, false)
    {
      ghost var before := flightSeats.Snapshot();
      var i := startCol;
      while i <= endCol
        invariant i == startCol || startCol < i <= endCol + 1
        invariant 0 <= row < |flightSeats.seats| ==> forall c :: 0 <= c < |flightSeats.seats[row]| ==>
                    flightSeats.seats[row][c].reserved == if startCol <= c < i then false else before[row][c]
        invariant forall rw, c :: 0 <= rw < |flightSeats.seats| && rw != row && 0 <= c < |flightSeats.seats[rw]| ==>
                    flightSeats.seats[rw][c].reserved == before[rw][c]
      {
        assert Grid.InBounds(before, row, i);
        var seat := flightSeats.GetSeat(row, i).value;
        seat.Cancel();
        i := i + 1;
      }
      flightSeats.SnapshotIs(Ranges.Fill(before, row, startCol, endCol, false));
    }

    /** ReservationManager.execute: hands the command to its action, on this
        manager's (shared) chart.  A command whose action was never set fails
        when the action is dereferenced, before any seat is touched. */
    method Execute(command: Command) returns (r: Result<bool>)
      requires Valid()
      modifies flightSeats.Cells()
      ensures command.action.None? ==> r == Err(NullPointer) && flightSeats.Snapshot() == old(flightSeats.Snapshot())
      ensures command.action.Some? ==>
                && r == ActionOutcome(command.action.value, old(flightSeats.Snapshot()), command).result
                && flightSeats.Snapshot() == ActionOutcome(command.action.value, old(flightSeats.Snapshot()), command).after
    {
      match command.action
      case None =>
        r := Err(NullPointer);
      case Some(a) =>
        r := ExecuteAction(a, this, command);
    }
  }

  /** The last column a command covers: `column + count - 1`. */
  function EndColumn(command: Command): int {
    command.columnNumber + command.consecutiveSeats - 1
  }

  /** What an action does to a chart: BOOK is a contiguous reservation of the
      command's range, CANCEL a contiguous cancellation. */
  function ActionOutcome(action: Action, g: Grid.Flags, command: Command): Ranges.Outcome {
    match action
    case BOOK => Ranges.Reserve(g, command.rowNumber, command.columnNumber, EndColumn(command))
    case CANCEL => Ranges.Cancel(g, command.rowNumber, command.columnNumber, EndColumn(command))
  }

  /** Action.execute: BOOK calls reserveSeats and CANCEL calls cancelSeats on
      the row and the range `column .. column + count - 1`, and passes the
      manager's answer back unchanged. */
  method ExecuteAction(action: Action, manager: ReservationManager, command: Command) returns (r: Result<bool>)
    requires manager.Valid()
    modifies manager.flightSeats.Cells()
    ensures r == ActionOutcome(action, old(manager.flightSeats.Snapshot()), command).result
    ensures manager.flightSeats.Snapshot() == ActionOutcome(action, old(manager.flightSeats.Snapshot()), command).after
  {
    match action
    case BOOK =>
      r := manager.ReserveSeats(command.rowNumber, command.columnNumber, EndColumn(command));
    case CANCEL =>
      r := manager.CancelSeats(command.rowNumber, command.columnNumber, EndColumn(command));
  }

  /** Either action changes seats of the command's row only. */
  lemma ActionStaysInRow(action: Action, g: Grid.Flags, command: Command)
    ensures Grid.SameShape(ActionOutcome(action, g, command).after, g)
    ensures forall i :: 0 <= i < |g| && i != command.rowNumber ==> ActionOutcome(action, g, command).after[i] == g[i]
  {
    var h := ActionOutcome(action, g, command).after;
    forall i | 0 <= i < |g| && i != command.rowNumber ensures h[i] == g[i] {
      assert forall j :: 0 <= j < |g[i]| ==> h[i][j] == g[i][j];
    }
  }

  /** A BOOK followed by a CANCEL with the same row, column and count: when
      the booking succeeds, so does the cancellation, and the chart is as
      before the booking. */
  lemma BookThenCancel(g: Grid.Flags, book: Command, cancel: Command)
    requires book.rowNumber == cancel.rowNumber && book.columnNumber == cancel.columnNumber
    requires book.consecutiveSeats == cancel.consecutiveSeats
    requires ActionOutcome(BOOK, g, book).result == Ok(true)
    ensures ActionOutcome(CANCEL, ActionOutcome(BOOK, g, book).after, cancel) == Ranges.Outcome(Ok(true), g)
  {
    Ranges.ReserveThenCancel(g, book.rowNumber, book.columnNumber, EndColumn(book));
  }

  /** A second BOOK with the same fields as a successful one (of at least one
      seat) returns false and changes nothing. */
  lemma SecondBookFails(g: Grid.Flags, command: Command)
    requires ActionOutcome(BOOK, g, command).result == Ok(true)
    requires command.consecutiveSeats >= 1
    ensures var g1 := ActionOutcome(BOOK, g, command).after;
            ActionOutcome(BOOK, g1, command) == Ranges.Outcome(Ok(false), g1)
  {
    Ranges.ReserveTwice(g, command.rowNumber, command.columnNumber, EndColumn(command));
  }

  /** A command of at least one seat on a row the chart does not have (row 20
      passes the builder but the default chart has rows 0..19) raises the
      getSeat exception and changes nothing. */
  lemma MissingRowRaises(action: Action, g: Grid.Flags, command: Command)
    requires command.rowNumber < 0 || command.rowNumber >= |g|
    requires command.consecutiveSeats >= 1
    ensures ActionOutcome(action, g, command) == Ranges.Outcome(Err(InvalidSeatSelection), g)
  {
  }
}
