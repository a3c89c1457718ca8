/** Outcomes of the booking engine's operations.  flight-booker's Java code signals every
    failure with an IllegalArgumentException (or a NullPointerException when a
    null field is dereferenced); here each such exception is an `Err` value
    naming the check that raised it. */
module Results {

  /** One constructor per exception the modelled code can raise. */
  datatype Error =
    | InvalidSeatSelection      // FlightSeats.getSeat: coordinates outside the grid
    | EmptySeatsArray           // FlightSeats(Seat[][]): null or empty input, or null first row
    | RaggedRows                // FlightSeats(Seat[][]): a null row or a row of another length
    | NullAction                // Command.Builder.setAction(null)
    | RowOutOfRange             // row number outside [0, 20]
    | ColumnOutOfRange          // column number outside [0, 7]
    | SeatCountOutOfRange       // consecutive seats outside [1, 8]
    | ActionNotSet              // Builder.validate: no action was set
    | EndColumnOutOfRange       // Builder.validate: last column of the range beyond 7
    | NullPointer               // dereferencing a command whose action was never set
    | WrongArgumentCount        // CommandParser.parse: not exactly three arguments
    | InvalidActionName         // CommandParser.parseAction
    | InvalidPositionFormat     // CommandParser.parsePosition
    | InvalidConsecutiveNumber  // CommandParser.parseConsecutiveNumber

  /** A value, or the exception that was raised instead. */
  datatype Result<+T> = Ok(value: T) | Err(error: Error) {
    predicate IsFailure() { Err? }

    function PropagateFailure<U>(): Result<U>
      requires Err?
    {
      Err(error)
    }

    function Extract(): T
      requires Ok?
    {
      value
    }
  }

  /** A check that either passes or raises an exception (a Java `void` method that may throw). */
  datatype Check = Pass | Fail(error: Error)

  /** A Java reference that may be null. */
  datatype Option<+T> = None | Some(value: T)
}
