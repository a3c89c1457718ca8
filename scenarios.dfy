/** The repository's unit tests, restated as methods whose contracts give
    the outcomes the tests assert (SeatTest, FlightSeatsTest,
    ReservationManagerTest, CommandTest, CommandParserTest). */
module Scenarios {
  import opened Results
  import opened Seats
  import opened FlightSeating
  import opened Commands
  import opened Reservations
  import opened CommandParsing
  import Ranges
  import Grid

  /** SeatTest: a new seat is free, reserve makes it reserved, cancel frees it again. */
  method SeatLifecycle() returns (initially: bool, afterReserve: bool, afterCancel: bool)
    ensures !initially && afterReserve && !afterCancel
  {
    var seat := new Seat();
    initially := seat.IsReserved();
    seat.Reserve();
    afterReserve := seat.IsReserved();
    seat.Cancel();
    afterCancel := seat.IsReserved();
  }

  /** The tests' double loop over getSeat(i, j).isReserved(): whether any
      seat of the chart is reserved. */
  method AnyReserved(fs: FlightSeats) returns (found: bool)
    requires fs.Valid()
    ensures found <==> exists i :: 0 <= i < |fs.seats| && true in fs.Snapshot()[i]
  {
    ghost var g := fs.Snapshot();
    found := false;
    for i := 0 to fs.RowLength()
      invariant found <==> exists k :: 0 <= k < i && true in g[k]
    {
      for j := 0 to fs.ColLength()
        invariant found <==> (exists k :: 0 <= k < i && true in g[k]) || true in g[i][..j]
      {
        assert g[i][..j + 1] == g[i][..j] + [g[i][j]];
        found := found || fs.GetSeat(i, j).value.IsReserved();
      }
      assert g[i][..fs.ColLength()] == g[i];
      assert (exists k :: 0 <= k < i + 1 && true in g[k]) <==> (exists k :: 0 <= k < i && true in g[k]) || true in g[i];
    }
  }

  /** FlightSeatsTest.testDefaultFlightSeats: 20 rows of 8 free seats. */
  method DefaultChart() returns (rows: nat, cols: nat, anyReserved: bool)
    ensures rows == 20 && cols == 8 && !anyReserved
  {
    var fs := new FlightSeats();
    rows, cols := fs.RowLength(), fs.ColLength();
    anyReserved := AnyReserved(fs);
  }

  /** A rows x cols array of new, free seats, as a test would allocate it. */
  method NewSeatArray(rows: nat, cols: nat) returns (input: array<array?<Seat>>)
    ensures fresh(input) && input.Length == rows
    ensures forall i :: 0 <= i < rows ==> input[i] != null && input[i].Length == cols
    ensures forall i, j :: 0 <= i < rows && input[i] != null && 0 <= j < input[i].Length ==> !input[i][j].reserved
  {
    input := new array?<Seat>[rows];
    for i := 0 to rows
      invariant forall k :: 0 <= k < i ==> input[k] != null && input[k].Length == cols
      invariant forall k, j :: 0 <= k < i && input[k] != null && 0 <= j < input[k].Length ==> !input[k][j].reserved
    {
      var seats: seq<Seat> := [];
      for j := 0 to cols
        modifies {}
        invariant |seats| == j
        invariant forall l :: 0 <= l < j ==> fresh(seats[l]) && !seats[l].reserved
      {
        var seat := new Seat();
        seats := seats + [seat];
      }
      var row := new Seat[cols](j requires 0 <= j < |seats| => seats[j]);
      input[i] := row;
    }
  }

  /** FlightSeatsTest.testCustomFlightSeatsConstructor: a 2 x 3 array of new
      seats is accepted and copied with its dimensions and free seats. */
  method CustomChart() returns (r: Result<FlightSeats>, rows: nat, cols: nat, anyReserved: bool)
    ensures r.Ok? && rows == 2 && cols == 3 && !anyReserved
  {
    var input := NewSeatArray(2, 3);
    r := FlightSeats.FromSeats(input);
    var fs := r.value;
    rows, cols := fs.RowLength(), fs.ColLength();
    anyReserved := AnyReserved(fs);
  }

  /** FlightSeatsTest.testInvalidSeatSelection: row 21 and column 8 do not exist. */
  method SeatsOutsideTheChart() returns (badRow: Result<Seat>, badCol: Result<Seat>)
    ensures badRow == Err(InvalidSeatSelection) && badCol == Err(InvalidSeatSelection)
  {
    var fs := new FlightSeats();
    badRow := fs.GetSeat(21, 0);
    badCol := fs.GetSeat(0, 8);
  }

  /** `new ReservationManager(new FlightSeats())`, the start of every
      manager test: a manager over a fresh default chart. */
  method NewManager() returns (fs: FlightSeats, m: ReservationManager)
    ensures fresh(fs) && fresh(fs.Cells()) && fs.Valid() && m.flightSeats == fs && m.Valid()
    ensures fs.Snapshot() == Grid.Blank(DEFAULT_ROW_LENGTH, DEFAULT_COL_LENGTH)
  {
    fs := new FlightSeats();
    m := new ReservationManager(fs);
    fs.SnapshotIs(Grid.Blank(DEFAULT_ROW_LENGTH, DEFAULT_COL_LENGTH));
  }

  /** ReservationManagerTest.reserveSeats_success and
      reserveSeats_alreadyReserved_fail: seats 2..4 of row 1 are booked once,
      and the second attempt fails. */
  method ReserveTwice() returns (first: Result<bool>, second: Result<bool>)
    ensures first == Ok(true) && second == Ok(false)
  {
    var fs, m := NewManager();
    ghost var g := m.flightSeats.Snapshot();
    Ranges.BlankRangeIsFree(20, 8, 1, 2, 4);
    first := m.ReserveSeats(1, 2, 4);
    Ranges.ReserveTwice(g, 1, 2, 4);
    second := m.ReserveSeats(1, 2, 4);
  }

  /** ReservationManagerTest.cancelSeats_success: seats booked and then
      cancelled leave the chart as blank as it started. */
  method ReserveThenCancel() returns (reserved: Result<bool>, cancelled: Result<bool>, chart: Grid.Flags)
    ensures reserved == Ok(true) && cancelled == Ok(true) && chart == Grid.Blank(DEFAULT_ROW_LENGTH, DEFAULT_COL_LENGTH)
  {
    var fs, m := NewManager();
    ghost var g := fs.Snapshot();
    var row, startCol, endCol := 2, 3, 5;
    Ranges.BlankRangeIsFree(20, 8, row, startCol, endCol);
    reserved := m.ReserveSeats(row, startCol, endCol);
    Ranges.ReserveThenCancel(g, row, startCol, endCol);
    cancelled := m.CancelSeats(row, startCol, endCol);
    chart := fs.Snapshot();
  }

  /** ReservationManagerTest.cancelSeats_notReserved_fail. */
  method CancelUnreserved() returns (r: Result<bool>)
    ensures r == Ok(false)
  {
    var fs, m := NewManager();
    r := m.CancelSeats(3, 1, 3);
  }

  /** ReservationManagerTest.executeBookCommand_success. */
  method ExecuteBook() returns (r: Result<bool>)
    ensures r == Ok(true)
  {
    var fs, m := NewManager();
    var command := BuildCommand(Some(BOOK), 4, 2, 3);
    Ranges.BlankRangeIsFree(20, 8, 4, 2, 4);
    r := m.Execute(command.value);
  }

  /** ReservationManagerTest.executeCancelCommand_seatsReserved_success. */
  method ExecuteBookThenCancel() returns (booked: Result<bool>, cancelled: Result<bool>)
    ensures booked == Ok(true) && cancelled == Ok(true)
  {
    var fs, m := NewManager();
    ghost var g := m.flightSeats.Snapshot();
    var book := BuildCommand(Some(BOOK), 5, 1, 2);
    Ranges.BlankRangeIsFree(20, 8, 5, 1, 2);
    booked := m.Execute(book.value);
    var cancel := BuildCommand(Some(CANCEL), 5, 1, 2);
    BookThenCancel(g, book.value, cancel.value);
    cancelled := m.Execute(cancel.value);
  }

  /** ReservationManagerTest.executeBookCommand_alreadyReservedSeats_fail. */
  method ExecuteBookTwice() returns (first: Result<bool>, second: Result<bool>)
    ensures first == Ok(true) && second == Ok(false)
  {
    var fs, m := NewManager();
    ghost var g := m.flightSeats.Snapshot();
    var command := BuildCommand(Some(BOOK), 6, 2, 3);
    Ranges.BlankRangeIsFree(20, 8, 6, 2, 4);
    first := m.Execute(command.value);
    SecondBookFails(g, command.value);
    second := m.Execute(command.value);
  }

  /** ReservationManagerTest.executeCancelCommand_unreservedSeats_fail: the
      cancellation fails and the chart is still blank. */
  method ExecuteCancelUnreserved() returns (r: Result<bool>, chart: Grid.Flags)
    ensures r == Ok(false) && chart == Grid.Blank(DEFAULT_ROW_LENGTH, DEFAULT_COL_LENGTH)
  {
    var fs, m := NewManager();
    var command := BuildCommand(Some(CANCEL), 7, 3, 2);
    r := m.Execute(command.value);
    chart := fs.Snapshot();
  }

  /** Row 20 passes the builder, but the default chart has no row 20: the
      command raises getSeat's exception and the chart is still blank. */
  method BookMissingRow() returns (built: Result<Command>, r: Result<bool>, chart: Grid.Flags)
    ensures built.Ok? && r == Err(InvalidSeatSelection) && chart == Grid.Blank(DEFAULT_ROW_LENGTH, DEFAULT_COL_LENGTH)
  {
    var fs, m := NewManager();
    ghost var g := fs.Snapshot();
    built := BuildCommand(Some(BOOK), 20, 0, 1);
    MissingRowRaises(BOOK, g, built.value);
    r := m.Execute(built.value);
    chart := fs.Snapshot();
  }

  /** CommandTest.testCommandBuilder_createsValidCommand and the four tests
      of a rejected field: each setter raises its own error. */
  method BuilderOutcomes()
    returns (valid: Result<Command>, badRow: Result<Command>, badColumn: Result<Command>,
             badCount: Result<Command>, nullAction: Result<Command>)
    ensures valid == Ok(Command(Some(BOOK), 5, 2, 3))
    ensures badRow == Err(RowOutOfRange) && badColumn == Err(ColumnOutOfRange)
    ensures badCount == Err(SeatCountOutOfRange) && nullAction == Err(NullAction)
  {
    valid := BuildCommand(Some(BOOK), 5, 2, 3);
    badRow := BuildCommand(Some(BOOK), -1, 2, 3);
    badColumn := BuildCommand(Some(BOOK), 5, 10, 3);
    badCount := BuildCommand(Some(BOOK), 5, 2, 10);
    nullAction := BuildCommand(None, 5, 2, 3);
  }

  /** CommandTest.testCommandBuilder_endColumnExceedingLimit_throwsException
      expects a throw, but build does not call validate: column 6 with 3
      seats builds, only validate would reject it, and executing it on the
      default chart raises getSeat's exception for column 8 and leaves the
      chart blank. */
  method EndColumnBeyondLimit() returns (built: Command, check: Check, r: Result<bool>, chart: Grid.Flags)
    ensures built == Command(Some(BOOK), 5, 6, 3)
    ensures check == Fail(EndColumnOutOfRange)
    ensures r == Err(InvalidSeatSelection) && chart == Grid.Blank(DEFAULT_ROW_LENGTH, DEFAULT_COL_LENGTH)
  {
    var b := new Builder();
    var step := b.SetAction(Some(BOOK));
    step := b.SetRowNumber(5);
    step := b.SetColumnNumber(6);
    step := b.SetConsecutiveSeats(3);
    built := b.Build();
    check := b.Validate();
    var fs, m := NewManager();
    ghost var g := fs.Snapshot();
    Ranges.AvailabilityCases(g, 5, 6, 8);
    r := m.Execute(built);
    chart := fs.Snapshot();
  }

  /** CommandParserTest: the two valid commands and the two rejected ones. */
  lemma ParserExamples()
    ensures Parse(["BOOK", "A3", "2"]) == Ok(Command(Some(BOOK), 0, 3, 2))
    ensures Parse(["CANCEL", "B5", "3"]) == Ok(Command(Some(CANCEL), 1, 5, 3))
    ensures Parse(["RESERVE", "C2", "2"]) == Err(InvalidActionName)
    ensures Parse(["BOOK", "C22", "2"]) == Err(InvalidPositionFormat)
  {
  }
}
