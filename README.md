# Flight seat booking engine, modelled in Dafny

This project models the booking engine of flight-booker, a small Java program that books and cancels contiguous ranges of seats on one flight.

- **Seats.** A seat is one mutable reserved flag.
- **The chart.** A flight's chart (`FlightSeats`) is a rectangular grid of seats. By default it has 20 rows of 8 free seats. It can also be built as a checked deep copy of a caller's array.
- **The manager.** The reservation manager checks a whole range of one row first. Only if the check passes does it change each seat of the range.
- **Commands.** A command says BOOK or CANCEL, a row, a first column and a seat count. It is built by a validating builder, or parsed from three command-line words.
- **The file format.** Each row is saved as a line of `R`/`E` symbols separated by commas.

## How the model is built

- **Exceptions.** Every Java exception becomes an `Err` value of `Results.Result`. Each `Results.Error` constructor names the check that raised it. A `void` check that may throw becomes `Results.Check`. A nullable reference becomes `Results.Option`.
- **Seat.** `Seats.Seat` is a class with the mutable field `reserved`.
- **The chart.**
  - `FlightSeating.FlightSeats` holds its seats as a constant sequence of rows. The Java array is `final` and never replaced, so the shape of a chart cannot change after construction.
  - A ghost map `Position` records which cell each seat occupies. `Valid()` makes it a bijection: no two cells share a seat.
  - `Snapshot()` is the chart's value view: the flag of every seat, row by row (`Grid.Flags`).
- **The range rules.** Module `Ranges` states the booking rules on that value view. The functions `AreSeatsAvailable` and `AreSeatsReserved` follow the lazy Java streams: they stop at the first seat that decides the answer. `Reserve` and `Cancel` give the returned value and the chart left behind.
- **The manager.** Its methods (`Reservations.ReservationManager`) loop over the real seat objects. Each one ensures that its result and the chart it leaves are exactly what the `Ranges` function gives for the old chart.
- **The builder.** `Commands.Builder` is a class whose setters change its fields. `Commands.SetterChain` is the value of a whole setter chain, and `Commands.BuildCommand` runs that chain on a real builder.
- **The parser and the file format.**
  - The parser (`CommandParsing`) is made of pure functions.
  - The file format (`Persistence`) consists of:
    - pure encode and decode functions;
    - methods that run the save and load loops over a sequence of lines, not over a file.
- **Unit tests.** Module `Scenarios` restates the repository's unit tests as methods, plus one scenario of its own (`Scenarios.BookMissingRow`). Each one's contract is the outcome the code gives. Where that differs from what the test asserts (`Scenarios.EndColumnBeyondLimit`), see below.

### Where the code and its tests or comments disagree

The model follows the code:

- **BOOK calls a method that does not exist.** `Action.BOOK` calls `newReserveSeats`, which is not defined anywhere (src/main/java/com/flight/reservation/Action.java:13). The tests expect contiguous booking, and a second identical booking must fail. So BOOK is modelled by the body beside it, which is commented out: `reserveSeats(row, col, col + count - 1)` (Action.java:19-25).
- **Seat has no copy constructor.** The chart's deep copy calls `new Seat(other)` (FlightSeats.java:58), which Seat.java does not define. It is modelled as `Seats.Seat.CopyOf`: a fresh seat with the other seat's flag.
- **`build` does not call `validate`.** The call is commented out (Command.java:134). So a command whose last column passes 7 still builds, although CommandTest.java:79-91 expects an exception. `Scenarios.EndColumnBeyondLimit` shows the outcome:
  - the command builds;
  - only `validate` would reject it;
  - executing it raises `getSeat`'s exception, and no seat is booked.
- **Row 20 passes the builder but does not exist.** The builder accepts row 20, but the default chart has rows 0..19. A command of at least one seat on row 20 ends in `InvalidSeatSelection` and changes nothing (`Reservations.MissingRowRaises`, `Scenarios.BookMissingRow`).
- **A chart with no columns does not survive a save and reload.** Each of its rows is saved as an empty line, and an empty line loads as one free seat (`Persistence.EmptyRowReloadsAsOneSeat`). The round trip therefore requires at least one column.

## Model

| member | source | states |
|---|---|---|
| Seats.Seat.constructor | src/main/java/com/flight/reservation/Seat.java:10-12 | a new seat is not reserved |
| Seats.Seat.CopyOf | src/main/java/com/flight/reservation/FlightSeats.java:58 | the copy carries exactly the other seat's flag |
| Seats.Seat.IsReserved | src/main/java/com/flight/reservation/Seat.java:18-20 | the answer is the reserved flag; as a function it cannot change any state |
| Seats.Seat.Reserve | src/main/java/com/flight/reservation/Seat.java:25-27 | afterwards the seat is reserved whatever it was, so reserving twice equals reserving once |
| Seats.Seat.Cancel | src/main/java/com/flight/reservation/Seat.java:32-34 | afterwards the seat is free whatever it was, so cancelling is idempotent and reserve-then-cancel gives a new seat's state |
| FlightSeating.FlightSeats.Snapshot | src/main/java/com/flight/reservation/FlightSeats.java:17 | the value view has one flag per seat, equal to that seat's flag, and is rectangular |
| FlightSeating.FlightSeats.SnapshotIs | src/main/java/com/flight/reservation/FlightSeats.java:17 | any grid value that agrees with every seat's flag is the snapshot |
| FlightSeating.FlightSeats.constructor | src/main/java/com/flight/reservation/FlightSeats.java:22-29 | 20 rows of 8 fresh, distinct, free seats |
| FlightSeating.FlightSeats.Copy | src/main/java/com/flight/reservation/FlightSeats.java:54-60 | the input's dimensions and every seat's flag, in fresh seats, one per cell |
| FlightSeating.FlightSeats.FromSeats | src/main/java/com/flight/reservation/FlightSeats.java:39-61 | a null or empty input, or a null first row, is rejected with the empty-input error; otherwise it succeeds exactly when every row is non-null and as long as the first, and fails with the ragged-rows error otherwise; a success copies dimensions and flags into fresh seats that share nothing with the input |
| FlightSeating.FlightSeats.IsValidSeat | src/main/java/com/flight/reservation/FlightSeats.java:97-99 | true exactly when the row is below the row count and the column below the column count |
| FlightSeating.FlightSeats.GetSeat | src/main/java/com/flight/reservation/FlightSeats.java:71-77 | a seat exactly for coordinates inside the grid, and it is that cell's own seat; any other coordinates give `InvalidSeatSelection` |
| FlightSeating.FlightSeats.RowLength | src/main/java/com/flight/reservation/FlightSeats.java:84-86 | the number of rows, at least one, fixed for the chart's lifetime |
| FlightSeating.FlightSeats.ColLength | src/main/java/com/flight/reservation/FlightSeats.java:93-95 | the length shared by every row, fixed for the chart's lifetime |
| Ranges.AreSeatsAvailable | src/main/java/com/flight/reservation/AbstractReservationManager.java:49-53 | the lazy `noneMatch` check: true exactly when every column of the range exists and is free; its only exception is `InvalidSeatSelection`; the full three-way outcome is `Ranges.AvailabilityCases` |
| Ranges.AreSeatsReserved | src/main/java/com/flight/reservation/AbstractReservationManager.java:55-59 | the lazy `allMatch` check: true exactly when every column of the range exists and is reserved; its only exception is `InvalidSeatSelection`; the full three-way outcome is `Ranges.ReservationCases` |
| Ranges.AvailabilityCases | src/main/java/com/flight/reservation/AbstractReservationManager.java:49-53 | the availability check is true exactly when the whole range exists and is free, false exactly when a reserved seat comes before any missing column, and an exception otherwise |
| Ranges.ReservationCases | src/main/java/com/flight/reservation/AbstractReservationManager.java:55-59 | the reservation check is true exactly when the whole range exists and is reserved, false exactly when a free seat comes before any missing column, and an exception otherwise |
| Ranges.Fill | src/main/java/com/flight/reservation/AbstractReservationManager.java:34-36 | the write pass: the range's seats take the new flag and every other seat keeps its own |
| Ranges.Reserve | src/main/java/com/flight/reservation/AbstractReservationManager.java:31-38 | true exactly when the whole range exists and is free, and then that range is reserved; otherwise nothing changes; seats outside the range never change |
| Ranges.Cancel | src/main/java/com/flight/reservation/AbstractReservationManager.java:40-47 | true exactly when the whole range exists and is reserved, and then that range is freed; otherwise nothing changes; seats outside the range never change |
| Ranges.EmptyRange | src/main/java/com/flight/reservation/AbstractReservationManager.java:50-52 | when the start column is past the end column, both operations return true and change nothing, even on a missing row |
| Ranges.ReserveTwice | test/com/flight/reservation/ReservationManagerTest.java:18-26 | a second reservation of the same non-empty range returns false and leaves the chart as the first one left it |
| Ranges.CancelTwice | src/main/java/com/flight/reservation/AbstractReservationManager.java:40-47 | a second cancellation of the same non-empty range returns false and changes nothing |
| Ranges.ReserveThenCancel | test/com/flight/reservation/ReservationManagerTest.java:28-36 | after a successful reservation, cancelling the same range succeeds and restores the chart exactly |
| Ranges.CancelThenReserve | src/main/java/com/flight/reservation/AbstractReservationManager.java:31-47 | after a successful cancellation, reserving the same range succeeds and restores the chart exactly |
| Reservations.ReservationManager.constructor | src/main/java/com/flight/reservation/AbstractReservationManager.java:18-20 | the manager keeps the very chart object it is given, without copying it |
| Reservations.ReservationManager.ReserveSeats | src/main/java/com/flight/reservation/AbstractReservationManager.java:31-38 | the result and the new chart are those of `Ranges.Reserve` on the old chart |
| Reservations.ReservationManager.ReserveEach | src/main/java/com/flight/reservation/AbstractReservationManager.java:34-36 | the loop reserves exactly the range's seats through `GetSeat` and leaves every other seat as it was |
| Reservations.ReservationManager.CancelSeats | src/main/java/com/flight/reservation/AbstractReservationManager.java:40-47 | the result and the new chart are those of `Ranges.Cancel` on the old chart |
| Reservations.ReservationManager.CancelEach | src/main/java/com/flight/reservation/AbstractReservationManager.java:43-45 | the loop frees exactly the range's seats through `GetSeat` and leaves every other seat as it was |
| Reservations.ReservationManager.Execute | src/main/java/com/flight/reservation/ReservationManager.java:29-33 | the action's own outcome on the manager's shared chart; a command without an action fails on dereference and changes nothing |
| Reservations.ExecuteAction | src/main/java/com/flight/reservation/Action.java:19-35 | BOOK reserves and CANCEL cancels the range from the column to column + count - 1 of the command's row, and the manager's answer is passed back unchanged |
| Reservations.ActionStaysInRow | src/main/java/com/flight/reservation/Action.java:19-35 | either action keeps the chart's shape and leaves every other row as it was |
| Reservations.BookThenCancel | test/com/flight/reservation/ReservationManagerTest.java:62-82 | a successful BOOK followed by a CANCEL with the same fields succeeds and gives back the original chart |
| Reservations.SecondBookFails | test/com/flight/reservation/ReservationManagerTest.java:84-106 | repeating a successful BOOK of at least one seat returns false and changes nothing |
| Reservations.MissingRowRaises | src/main/java/com/flight/reservation/FlightSeats.java:71-76 | a command of at least one seat on a row the chart lacks raises `InvalidSeatSelection` and changes nothing |
| Commands.Builder.constructor | src/main/java/com/flight/reservation/Command.java:61-65 | a new builder has no action and three zero fields |
| Commands.Builder.SetAction | src/main/java/com/flight/reservation/Command.java:74-79 | a null action raises and keeps the previous action; otherwise the action is stored and the builder returned; no other field changes |
| Commands.Builder.SetRowNumber | src/main/java/com/flight/reservation/Command.java:89-94 | accepts exactly 0..20 and stores it; otherwise it raises and keeps the old row; no other field changes |
| Commands.Builder.SetColumnNumber | src/main/java/com/flight/reservation/Command.java:104-109 | accepts exactly 0..7 and stores it; otherwise it raises and keeps the old column; no other field changes |
| Commands.Builder.SetConsecutiveSeats | src/main/java/com/flight/reservation/Command.java:119-124 | accepts exactly 1..8 and stores it; otherwise it raises and keeps the old count; no other field changes |
| Commands.Builder.Build | src/main/java/com/flight/reservation/Command.java:21-26 | the command carries the builder's four fields verbatim, with no range check |
| Commands.Builder.Validate | src/main/java/com/flight/reservation/Command.java:138-155 | passes exactly when the action is set, each field is in its setter's range, and column + count - 1 is at most 7; a missing action fails first; with in-range fields, the end-column error arises exactly when the range passes column 7 |
| Commands.SetterChain | src/main/java/com/flight/reservation/Command.java:74-136 | the chain succeeds exactly when the action is set and the three numbers are in their ranges, and then the command carries those values |
| Commands.BuildCommand | src/main/java/com/flight/reservation/CommandParser.java:26-31 | running the setter chain on a new builder gives `SetterChain`'s outcome |
| CommandParsing.ParseAction | src/main/java/com/flight/reservation/CommandParser.java:34-42 | BOOK exactly for "BOOK", CANCEL exactly for "CANCEL" (case-sensitive), `InvalidActionName` otherwise |
| CommandParsing.ParsePosition | src/main/java/com/flight/reservation/CommandParser.java:44-53 | succeeds exactly on two characters, giving the first one's distance from 'A' and the second one's from '0' |
| CommandParsing.PositionText | src/main/java/com/flight/reservation/CommandParser.java:49-50 | the inverse of the position arithmetic: two characters whose offsets from 'A' and '0' are the row and the column |
| CommandParsing.ParseInt | src/main/java/com/flight/reservation/CommandParser.java:57 | a number is read only from an optional '-' or '+' followed by at least one digit, so any other text (empty, "abc", "2x", a bare sign) fails; a result always fits a Java int; an unsigned or '+' numeral succeeds exactly when its value is at most 2147483647 and gives it, and a '-' numeral succeeds exactly when its value is at most 2147483648 and gives its negation |
| CommandParsing.CountTextExamples | src/main/java/com/flight/reservation/CommandParser.java:55-61 | "abc", "2x", "-" and "" are rejected; "-5" gives -5 and "+3" gives 3 |
| CommandParsing.ParseConsecutiveNumber | src/main/java/com/flight/reservation/CommandParser.java:55-61 | the count is `ParseInt`'s value, and a number format failure becomes `InvalidConsecutiveNumber` |
| CommandParsing.Decimal | src/main/java/com/flight/reservation/CommandParser.java:57 | the decimal text of a natural number is a non-empty run of digits |
| CommandParsing.DecimalValue | src/main/java/com/flight/reservation/CommandParser.java:57 | reading back the decimal digits of n gives n |
| CommandParsing.ParseDecimal | src/main/java/com/flight/reservation/CommandParser.java:57 | parsing the decimal text of any non-negative int gives that int back |
| CommandParsing.Parse | src/main/java/com/flight/reservation/CommandParser.java:17-32 | anything but three arguments fails; it succeeds exactly when the word is BOOK or CANCEL, the position has two characters inside rows 0..20 and columns 0..7, and the count parses into 1..8; a parsed command carries the parsed action, the row and column offsets of the position's two characters, and `parseInt`'s value of the count (so "02" and "+2" both give 2), all in range |
| CommandParsing.PaddedAndSignedCounts | src/main/java/com/flight/reservation/CommandParser.java:55-61 | "BOOK A3 02" and "CANCEL B5 +2" both carry a count of 2 |
| CommandParsing.Unparse | src/main/java/com/flight/reservation/CommandParser.java:17-32 | the three argument words that denote a command |
| CommandParsing.ParseUnparse | src/main/java/com/flight/reservation/CommandParser.java:17-61 | every command with an action and in-range fields is parsed back from its own words |
| CommandParsing.ParseIsCanonical | src/main/java/com/flight/reservation/CommandParser.java:34-53 | a parsed command determines the action word and the position text it came from |
| Persistence.Symbol | src/main/java/com/flight/reservation/FileManager.java:24-25 | a seat's symbol never contains the delimiter |
| Persistence.Join | src/main/java/com/flight/reservation/FileManager.java:50 | joining no parts gives the empty line |
| Persistence.Split | src/main/java/com/flight/reservation/FileManager.java:69 | splitting always gives at least one field, and no field contains the delimiter |
| Persistence.SplitAfterPiece | src/main/java/com/flight/reservation/FileManager.java:69 | a comma-free piece followed by a comma splits off as the first field |
| Persistence.SplitPiece | src/main/java/com/flight/reservation/FileManager.java:69 | a comma-free text splits into itself alone |
| Persistence.SplitJoin | src/main/java/com/flight/reservation/FileManager.java:50-69 | splitting a join of one or more comma-free parts gives the parts back |
| Persistence.JoinSplit | src/main/java/com/flight/reservation/FileManager.java:50-69 | joining the fields of a split gives the line back |
| Persistence.DecodeRow | src/main/java/com/flight/reservation/FileManager.java:69-71 | one seat per field, in field order, reserved exactly when the field is "R" |
| Persistence.EncodeGrid | src/main/java/com/flight/reservation/FileManager.java:38-41 | one line per row, in row order, each that row's encoding |
| Persistence.DecodeLines | src/main/java/com/flight/reservation/FileManager.java:62-80 | one row per line, in line order, each the decoding of that line's fields |
| Persistence.EncodeRowLayout | src/main/java/com/flight/reservation/FileManager.java:47-50 | a row of n ≥ 1 seats encodes to 2n - 1 characters: the symbols at even positions and commas between them |
| Persistence.RowRoundTrip | src/main/java/com/flight/reservation/FileManager.java:47-89 | splitting and decoding a saved non-empty row gives back its flags |
| Persistence.EmptyRowReloadsAsOneSeat | src/main/java/com/flight/reservation/FileManager.java:47-89 | a row with no seats is saved as an empty line, which reloads as one free seat |
| Persistence.GridRoundTrip | src/main/java/com/flight/reservation/FileManager.java:36-89 | decoding the saved lines of a chart with at least one column gives the chart back |
| Persistence.CreateRowRepresentation | src/main/java/com/flight/reservation/FileManager.java:47-51 | the symbols read through `getSeat` from one row, joined by commas, are that row's encoding |
| Persistence.SaveToLines | src/main/java/com/flight/reservation/FileManager.java:36-45 | the lines written are the encoding of the chart's current flags, one per row |
| Persistence.CreateSeatFromSymbol | src/main/java/com/flight/reservation/FileManager.java:83-89 | a new seat, reserved exactly when the symbol is "R" |
| Persistence.CreateRow | src/main/java/com/flight/reservation/FileManager.java:69-71 | one new seat per field of the split line, with the decoded flags |
| Persistence.LoadFromLines | src/main/java/com/flight/reservation/FileManager.java:62-81 | one new row of new seats per line, each as long as that line's field count and carrying the decoded flags |
| Persistence.SaveAndReload | src/main/java/com/flight/reservation/FileManager.java:36-89 | saving a chart with at least one column and loading it into a new chart gives fresh seats with the same flags |
| Scenarios.SeatLifecycle | test/com/flight/reservation/SeatTest.java:8-27 | a new seat is free, is reserved after `reserve`, and is free again after `cancel` |
| Scenarios.AnyReserved | test/com/flight/reservation/FlightSeatsTest.java:16-20 | the tests' double loop over `getSeat` finds a reserved seat exactly when the chart has one |
| Scenarios.DefaultChart | test/com/flight/reservation/FlightSeatsTest.java:8-21 | the default chart has 20 rows, 8 columns and no reserved seat |
| Scenarios.NewSeatArray | test/com/flight/reservation/FlightSeatsTest.java:25-31 | a fresh rows × cols array of free seats |
| Scenarios.CustomChart | test/com/flight/reservation/FlightSeatsTest.java:23-44 | a 2 × 3 array of new seats is accepted, with 2 rows, 3 columns and no reserved seat |
| Scenarios.SeatsOutsideTheChart | test/com/flight/reservation/FlightSeatsTest.java:46-53 | row 21 and column 8 of the default chart raise `InvalidSeatSelection` |
| Scenarios.NewManager | test/com/flight/reservation/ReservationManagerTest.java:11 | the manager works on the very new default chart, which is blank |
| Scenarios.ReserveTwice | test/com/flight/reservation/ReservationManagerTest.java:9-26 | row 1, columns 2..4: the first booking returns true and the second false |
| Scenarios.ReserveThenCancel | test/com/flight/reservation/ReservationManagerTest.java:28-36 | row 2, columns 3..5: booked, then cancelled, and the chart is blank again |
| Scenarios.CancelUnreserved | test/com/flight/reservation/ReservationManagerTest.java:38-45 | cancelling row 3, columns 1..3 of a blank chart returns false |
| Scenarios.ExecuteBook | test/com/flight/reservation/ReservationManagerTest.java:47-60 | BOOK of row 4, column 2, three seats succeeds on a blank chart |
| Scenarios.ExecuteBookThenCancel | test/com/flight/reservation/ReservationManagerTest.java:62-82 | BOOK then CANCEL of row 5, column 1, two seats both succeed |
| Scenarios.ExecuteBookTwice | test/com/flight/reservation/ReservationManagerTest.java:84-106 | a second BOOK of row 6, column 2, three seats returns false |
| Scenarios.ExecuteCancelUnreserved | test/com/flight/reservation/ReservationManagerTest.java:108-122 | CANCEL of row 7, column 3, two seats returns false and the chart stays blank |
| Scenarios.BookMissingRow | src/main/java/com/flight/reservation/Command.java:89-94 | a BOOK of row 20 builds but raises `InvalidSeatSelection` on the default chart, which stays blank |
| Scenarios.BuilderOutcomes | test/com/flight/reservation/CommandTest.java:8-77 | the valid command carries its four values; a bad row, column or count, or a null action, each raises its own error |
| Scenarios.EndColumnBeyondLimit | test/com/flight/reservation/CommandTest.java:79-91 | column 6 with 3 seats builds, only `validate` rejects it, and executing it raises and books nothing |
| Scenarios.ParserExamples | test/com/flight/reservation/CommandParserTest.java:8-44 | "BOOK A3 2" gives row 0, column 3, two seats; "CANCEL B5 3" gives row 1, column 5, three seats; "RESERVE" and a three-character position are rejected |

## Left out

- **Concurrency.** This covers:
  - the `synchronized` block in `ReservationManager.execute`;
  - ReservationManagerWithRowLevelLock.java;
  - ReservationManagerWithCAS.java.

  They only add locking, or are an unfinished stub, so `execute` is modelled as one sequential step.
- `newReserveSeats` and its "nearest seat" search: no implementation exists, so BOOK is modelled by its commented-out contiguous body.
- **File and console I/O.**
  - Saving yields the lines to be written, and loading takes the lines that were read.
  - Not modelled:
    - `PrintWriter` and `BufferedReader`;
    - the `RuntimeException` wrapping of I/O errors;
    - the debug `System.out.print` in `Action.BOOK`;
    - the entry point, Main.java.
- ActionInterface.java: a one-method interface. Its only implementation is the Action model.
- **AbstractReservationManager and ReservationManager are one class.** The abstract base and its single subclass are merged into `Reservations.ReservationManager`. `Action.execute` is the module-level method `Reservations.ExecuteAction`.
- **Null Seat cells** inside a row of the caller's array are not representable: the rows hold non-null seats. Null rows and null arrays are modelled.
- **Persistence.Split** does not drop trailing empty fields as Java's `String.split` does. For the lines the model writes, it agrees with `String.split`.
- **CommandParsing.ParsePosition** counts the characters of a position as Unicode scalar values, while Java's `length()` and `charAt` count UTF-16 units. A position holding a character outside the Basic Multilingual Plane is measured differently: "A" followed by an emoji is two characters here and three in Java. Which arguments `CommandParsing.Parse` accepts, and the commands it returns, do not change, because success needs two ASCII characters; only the error raised for such a position can differ. For example, "A" followed by an emoji gives `ColumnOutOfRange` here where Java raises the format error; an emoji followed by "5" gives `RowOutOfRange` here where Java raises the format error; a lone emoji gives `InvalidPositionFormat` here where Java's row setter raises.
- **CommandParsing.ParseInt** accepts only ASCII digits. Java's `Integer.parseInt` accepts other Unicode decimal digits too.
- **The two range checks read the seat flags through the chart's snapshot.** `Ranges.AreSeatsAvailable` and `Ranges.AreSeatsReserved` are applied to the snapshot, not to a stream of `getSeat` calls. The write loops do go through `GetSeat`.
- **Reservations.ReservationManager.ReserveEach** and **Reservations.ReservationManager.CancelEach** require that every column of the range exists. This holds because they are only reached after a check that returned true; the Java loops are inlined in `reserveSeats` and `cancelSeats`.
- **Persistence.SaveAndReload** requires at least one column: a chart with no columns does not round-trip (see `Persistence.EmptyRowReloadsAsOneSeat`).
