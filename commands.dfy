/** Booking commands and their builder (Command.java). */
module Commands {
  import opened Results

  const MAX_ROW_NUMBER: int := 20
  const MAX_COLUMN_NUMBER: int := 7
  const MIN_CONSECUTIVE_SEATS: int := 1
  const MAX_CONSECUTIVE_SEATS: int := 8

  /** The two actions a command can carry (the constants of the Action enum;
      what they do is `Reservations.ExecuteAction`). */
  datatype Action = BOOK | CANCEL

  /** An immutable command; its fields are the four getters.  The action is
      `None` when the builder's action was never set. */
  datatype Command = Command(action: Option<Action>, rowNumber: int, columnNumber: int, consecutiveSeats: int)

  /** The range each setter accepts. */
  predicate RowInRange(n: int) { 0 <= n <= MAX_ROW_NUMBER }
  predicate ColumnInRange(n: int) { 0 <= n <= MAX_COLUMN_NUMBER }
  predicate CountInRange(n: int) { MIN_CONSECUTIVE_SEATS <= n <= MAX_CONSECUTIVE_SEATS }

  /** Command.Builder: four fields, each set by a validating setter.  A setter
      that raises leaves every field as it was. */
  class Builder {
    var action: Option<Action>
    var rowNumber: int
    var columnNumber: int
    var consecutiveSeats: int

    /** Java's defaults: a null action and three zeros. */
    constructor ()
      ensures action == None && rowNumber == 0 && columnNumber == 0 && consecutiveSeats == 0
    {
      action, rowNumber, columnNumber, consecutiveSeats := None, 0, 0, 0;
    }

    /** setAction: a null action raises and keeps the previous one; otherwise
        it is stored and the builder is returned for chaining. */
    method SetAction(a: Option<Action>) returns (r: Result<Builder>)
      modifies this
      ensures a.None? ==> r == Err(NullAction) && action == old(action)
      ensures a.Some? ==> r == Ok(this) && action == a
      ensures rowNumber == old(rowNumber) && columnNumber == old(columnNumber)
      ensures consecutiveSeats == old(consecutiveSeats)
    {
      if a.None? {
        return Err(NullAction);
      }
      action := a;
      return Ok(this);
    }

    /** setRowNumber: accepts exactly 0..20. */
    method SetRowNumber(n: int) returns (r: Result<Builder>)
      modifies this
      ensures r.Ok? <==> RowInRange(n)
      ensures r.Ok? ==> r.value == this && rowNumber == n
      ensures r.Err? ==> r.error == RowOutOfRange && rowNumber == old(rowNumber)
      ensures action == old(action) && columnNumber == old(columnNumber)
      ensures consecutiveSeats == old(consecutiveSeats)
    {
      if n < 0 || n > MAX_ROW_NUMBER {
        return Err(RowOutOfRange);
      }
      rowNumber := n;
      return Ok(this);
    }

    /** setColumnNumber: accepts exactly 0..7. */
    method SetColumnNumber(n: int) returns (r: Result<Builder>)
      modifies this
      ensures r.Ok? <==> ColumnInRange(n)
      ensures r.Ok? ==> r.value == this && columnNumber == n
      ensures r.Err? ==> r.error == ColumnOutOfRange && columnNumber == old(columnNumber)
      ensures action == old(action) && rowNumber == old(rowNumber)
      ensures consecutiveSeats == old(consecutiveSeats)
    {
      if n < 0 || n > MAX_COLUMN_NUMBER {
        return Err(ColumnOutOfRange);
      }
      columnNumber := n;
      return Ok(this);
    }

    /** setConsecutiveSeats: accepts exactly 1..8. */
    method SetConsecutiveSeats(n: int) returns (r: Result<Builder>)
      modifies this
      ensures r.Ok? <==> CountInRange(n)
      ensures r.Ok? ==> r.value == this && consecutiveSeats == n
      ensures r.Err? ==> r.error == SeatCountOutOfRange && consecutiveSeats == old(consecutiveSeats)
      ensures action == old(action) && rowNumber == old(rowNumber)
      ensures columnNumber == old(columnNumber)
    {
      if n < MIN_CONSECUTIVE_SEATS || n > MAX_CONSECUTIVE_SEATS {
        return Err(SeatCountOutOfRange);
      }
      consecutiveSeats := n;
      return Ok(this);
    }

    /** build: the four fields copied verbatim.  Command.java has its call to
        validate commented out, so nothing is checked here. */
    function Build(): (c: Command)
      reads this
      ensures c.action == action && c.rowNumber == rowNumber
      ensures c.columnNumber == columnNumber && c.consecutiveSeats == consecutiveSeats
    {
      Command(action, rowNumber, columnNumber, consecutiveSeats)
    }

    /** validate (never called): passes exactly when the action is set, every
        field is in its setter's range and the last column of the range,
        `columnNumber + consecutiveSeats - 1`, is at most 7; otherwise it
        raises for the first check that fails, in the order written. */
    function Validate(): (r: Check)
      reads this
      ensures r == Pass <==>
                && action.Some? && RowInRange(rowNumber) && ColumnInRange(columnNumber)
                && CountInRange(consecutiveSeats) && columnNumber + consecutiveSeats - 1 <= MAX_COLUMN_NUMBER
      ensures action.None? ==> r == Fail(ActionNotSet)
      ensures action.Some? && RowInRange(rowNumber) && ColumnInRange(columnNumber) && CountInRange(consecutiveSeats) ==>
                (r == Fail(EndColumnOutOfRange) <==> columnNumber + consecutiveSeats - 1 > MAX_COLUMN_NUMBER)
    {
      if action.None? then Fail(ActionNotSet)
      else if rowNumber < 0 || rowNumber > MAX_ROW_NUMBER then Fail(RowOutOfRange)
      else if columnNumber < 0 || columnNumber > MAX_COLUMN_NUMBER then Fail(ColumnOutOfRange)
      else if consecutiveSeats < MIN_CONSECUTIVE_SEATS || consecutiveSeats > MAX_CONSECUTIVE_SEATS then Fail(SeatCountOutOfRange)
      else if columnNumber + consecutiveSeats - 1 > MAX_COLUMN_NUMBER then Fail(EndColumnOutOfRange)
      else Pass
    }
  }

  /** The value of `new Builder().setAction(a).setRowNumber(row)
      .setColumnNumber(col).setConsecutiveSeats(count).build()`: the first
      setter that rejects its argument raises; otherwise the command carries
      the four arguments. */
  function SetterChain(a: Option<Action>, row: int, col: int, count: int): (r: Result<Command>)
    ensures r.Ok? <==> a.Some? && RowInRange(row) && ColumnInRange(col) && CountInRange(count)
    ensures r.Ok? ==> r.value == Command(a, row, col, count)
  {
    if a.None? then Err(NullAction)
    else if !RowInRange(row) then Err(RowOutOfRange)
    else if !ColumnInRange(col) then Err(ColumnOutOfRange)
    else if !CountInRange(count) then Err(SeatCountOutOfRange)
    else Ok(Command(a, row, col, count))
  }

  /** Runs that chain on a fresh builder; its outcome is `SetterChain`'s. */
  method BuildCommand(a: Option<Action>, row: int, col: int, count: int) returns (r: Result<Command>)
    ensures r == SetterChain(a, row, col, count)
  {
    var b := new Builder();
    var step := b.SetAction(a);
    if step.Err? {
      return Err(step.error);
    }
    step := step.value.SetRowNumber(row);
    if step.Err? {
      return Err(step.error);
    }
    step := step.value.SetColumnNumber(col);
    if step.Err? {
      return Err(step.error);
    }
    step := step.value.SetConsecutiveSeats(count);
    if step.Err? {
      return Err(step.error);
    }
    return Ok(step.value.Build());
  }
}
