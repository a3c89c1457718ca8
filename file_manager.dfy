/** The seating file format (FileManager.java): one line per row, each seat
    written "R" (reserved) or "E" (empty), separated by commas.  The file
    itself is not modelled: saving produces the sequence of lines that would
    be written, and loading consumes the sequence of lines that was read. */
module Persistence {
  import opened Results
  import opened Seats
  import opened FlightSeating
  import Grid

  const DELIMITER: char := ','
  const RESERVED_SYMBOL: string := "R"
  const EMPTY_SYMBOL: string := "E"

  /** The symbol of one seat. */
  function Symbol(reserved: bool): (s: string)
    ensures DELIMITER !in s
  {
    if reserved then RESERVED_SYMBOL else EMPTY_SYMBOL
  }

  /** Collectors.joining(","): the parts with a comma between neighbours. */
  function Join(parts: seq<string>): (line: string)
    ensures |parts| == 0 ==> line == ""
    decreases |parts|
  {
    if |parts| == 0 then ""
    else if |parts| == 1 then parts[0]
    else parts[0] + [DELIMITER] + Join(parts[1..])
  }

  /** line.split(","): the maximal comma-free pieces of the line, empty ones
      included, so there is always at least one. */
  function Split(line: string): (fields: seq<string>)
    ensures |fields| >= 1
    ensures forall k :: 0 <= k < |fields| ==> DELIMITER !in fields[k]
    decreases |line|
  {
    if |line| == 0 then [""]
    else
      var rest := Split(line[1..]);
      if line[0] == DELIMITER then [""] + rest
      else [[line[0]] + rest[0]] + rest[1..]
  }

  /** createRowRepresentation on the flags of one row. */
  function EncodeRow(row: seq<bool>): (line: string)
  {
    Join(seq(|row|, col requires 0 <= col < |row| => Symbol(row[col])))
  }

  /** createSeatFromSymbol on its result's flag: "R" is reserved, every other
      field (including "E" and anything unexpected) is empty. */
  predicate DecodeSymbol(symbol: string) {
    symbol == RESERVED_SYMBOL
  }

  /** The flags of the seats a split line decodes to, in field order. */
  function DecodeRow(fields: seq<string>): (row: seq<bool>)
    ensures |row| == |fields|
    ensures forall k :: 0 <= k < |fields| ==> (row[k] <==> fields[k] == RESERVED_SYMBOL)
  {
    seq(|fields|, k requires 0 <= k < |fields| => DecodeSymbol(fields[k]))
  }

  /** The lines saveToFile writes for a chart. */
  function EncodeGrid(g: Grid.Flags): (lines: seq<string>)
    ensures |lines| == |g|
    ensures forall i :: 0 <= i < |g| ==> lines[i] == EncodeRow(g[i])
  {
    seq(|g|, i requires 0 <= i < |g| => EncodeRow(g[i]))
  }

  /** The flags of the chart loadFromFile builds from some lines. */
  function DecodeLines(lines: seq<string>): (g: Grid.Flags)
    ensures |g| == |lines|
    ensures forall i :: 0 <= i < |lines| ==> g[i] == DecodeRow(Split(lines[i]))
  {
    seq(|lines|, i requires 0 <= i < |lines| => DecodeRow(Split(lines[i])))
  }

  /** Splitting undoes joining, one leading piece at a time. */
  lemma {:induction false} SplitAfterPiece(piece: string, rest: string)
    requires DELIMITER !in piece
    ensures Split(piece + [DELIMITER] + rest) == [piece] + Split(rest)
    decreases |piece|
  {
    if |piece| == 0 {
      assert piece + [DELIMITER] + rest == [DELIMITER] + rest;
      assert ([DELIMITER] + rest)[1..] == rest;
    } else {
      var line := piece + [DELIMITER] + rest;
      assert line[1..] == piece[1..] + [DELIMITER] + rest;
      SplitAfterPiece(piece[1..], rest);
      assert [line[0]] + piece[1..] == piece;
    }
  }

  /** A comma-free string splits into itself alone. */
  lemma {:induction false} SplitPiece(piece: string)
    requires DELIMITER !in piece
    ensures Split(piece) == [piece]
    decreases |piece|
  {
    if |piece| != 0 {
      SplitPiece(piece[1..]);
      assert [piece[0]] + piece[1..] == piece;
    }
  }

  /** Splitting a join of comma-free parts gives the parts back. */
  lemma {:induction false} SplitJoin(parts: seq<string>)
    requires |parts| >= 1
    requires forall k :: 0 <= k < |parts| ==> DELIMITER !in parts[k]
    ensures Split(Join(parts)) == parts
    decreases |parts|
  {
    if |parts| == 1 {
      SplitPiece(parts[0]);
    } else {
      SplitJoin(parts[1..]);
      SplitAfterPiece(parts[0], Join(parts[1..]));
    }
  }

  /** Joining the pieces of a split gives the line back. */
  lemma {:induction false} JoinSplit(line: string)
    ensures Join(Split(line)) == line
    decreases |line|
  {
    if |line| != 0 {
      var rest := Split(line[1..]);
      JoinSplit(line[1..]);
      if line[0] == DELIMITER {
        assert Join([""] + rest) == "" + [DELIMITER] + Join(rest) by {
          assert ([""] + rest)[1..] == rest;
        }
        assert line == [line[0]] + line[1..];
      } else {
        var first := [line[0]] + rest[0];
        if |rest| == 1 {
          assert Join(rest) == rest[0];
        } else {
          assert Join(rest) == rest[0] + [DELIMITER] + Join(rest[1..]);
          assert ([first] + rest[1..])[1..] == rest[1..];
        }
        assert line == [line[0]] + line[1..];
      }
    }
  }

  /** A non-empty row is written as 2n - 1 characters: its symbols at the
      even positions, in column order, and commas in between. */
  lemma {:induction false} EncodeRowLayout(row: seq<bool>)
    requires |row| >= 1
    ensures |EncodeRow(row)| == 2 * |row| - 1
    ensures forall c :: 0 <= c < |row| ==> EncodeRow(row)[2 * c] == Symbol(row[c])[0]
    ensures forall c :: 0 <= c < |row| - 1 ==> EncodeRow(row)[2 * c + 1] == DELIMITER
    decreases |row|
  {
    var line := EncodeRow(row);
    if |row| > 1 {
      var tail := EncodeRow(row[1..]);
      EncodeRowLayout(row[1..]);
      var symbols := seq(|row|, col requires 0 <= col < |row| => Symbol(row[col]));
      assert symbols[1..] == seq(|row| - 1, col requires 0 <= col < |row| - 1 => Symbol(row[1..][col]));
      assert line == Symbol(row[0]) + [DELIMITER] + tail;
      forall c | 1 <= c < |row| ensures line[2 * c] == Symbol(row[c])[0] {
        assert line[2 * c] == tail[2 * (c - 1)];
      }
      forall c | 1 <= c < |row| - 1 ensures line[2 * c + 1] == DELIMITER {
        assert line[2 * c + 1] == tail[2 * (c - 1) + 1];
      }
    }
  }

  /** Round trip of one row: the saved line splits and decodes back into the
      same flags, whenever the row has a seat. */
  lemma RowRoundTrip(row: seq<bool>)
    requires |row| >= 1
    ensures DecodeRow(Split(EncodeRow(row))) == row
  {
    var symbols := seq(|row|, col requires 0 <= col < |row| => Symbol(row[col]));
    SplitJoin(symbols);
  }

  /** A row without seats is saved as an empty line, which loads as one
      empty seat: the round trip needs at least one column. */
  lemma EmptyRowReloadsAsOneSeat()
    ensures DecodeRow(Split(EncodeRow([]))) == [false]
  {
  }

  /** Round trip of a whole chart with at least one column. */
  lemma {:induction false} GridRoundTrip(g: Grid.Flags)
    requires forall i :: 0 <= i < |g| ==> |g[i]| >= 1
    ensures DecodeLines(EncodeGrid(g)) == g
  {
    forall i | 0 <= i < |g| ensures DecodeLines(EncodeGrid(g))[i] == g[i] {
      RowRoundTrip(g[i]);
    }
  }

  /** createRowRepresentation: the symbol of each seat of the row, read
      through getSeat, in column order and joined by commas. */
  function CreateRowRepresentation(flightSeats: FlightSeats, row: int): (line: string)
    requires flightSeats.Valid() && 0 <= row < flightSeats.RowLength()
    reads flightSeats.Cells()
    ensures line == EncodeRow(flightSeats.Snapshot()[row])
  {
    var n := flightSeats.ColLength();
    var symbols := seq(n, col requires 0 <= col < n reads flightSeats.Cells() =>
      Symbol(flightSeats.GetSeat(row, col).value.IsReserved()));
    var flags := flightSeats.Snapshot()[row];
    assert symbols == seq(|flags|, col requires 0 <= col < |flags| => Symbol(flags[col])) by {
      assert forall col :: 0 <= col < n ==> symbols[col] == Symbol(flags[col]);
    }
    Join(symbols)
  }

  /** saveToFile without the file: one line per row of the chart, in row
      order, each the row's representation. */
  method SaveToLines(flightSeats: FlightSeats) returns (lines: seq<string>)
    requires flightSeats.Valid()
    ensures lines == EncodeGrid(flightSeats.Snapshot())
  {
    lines := [];
    for i := 0 to flightSeats.RowLength()
      invariant |lines| == i
      invariant forall k :: 0 <= k < i ==> lines[k] == EncodeRow(flightSeats.Snapshot()[k])
    {
      lines := lines + [CreateRowRepresentation(flightSeats, i)];
    }
  }

  /** createSeatFromSymbol: a new seat, reserved exactly when the field is "R". */
  method CreateSeatFromSymbol(symbol: string) returns (seat: Seat)
    ensures fresh(seat)
    ensures seat.reserved == DecodeSymbol(symbol)
  {
    seat := new Seat();
    if symbol == RESERVED_SYMBOL {
      seat.Reserve();
    }
  }

  /** The seats of one line, one new seat per field, in field order. */
  method CreateRow(line: string) returns (row: array<Seat>)
    ensures fresh(row)
    ensures forall j :: 0 <= j < row.Length ==> fresh(row[j])
    ensures row.Length == |Split(line)|
    ensures forall j :: 0 <= j < row.Length ==> row[j].reserved == DecodeRow(Split(line))[j]
  {
    var fields := Split(line);
    var seats: seq<Seat> := [];
    for j := 0 to |fields|
      invariant |seats| == j
      invariant forall k :: 0 <= k < j ==> fresh(seats[k]) && seats[k].reserved == DecodeSymbol(fields[k])
    {
      var seat := CreateSeatFromSymbol(fields[j]);
      seats := seats + [seat];
    }
    row := new Seat[|seats|](j requires 0 <= j < |seats| => seats[j]);
  }

  /** loadFromFile without the file: one new row of seats per line, in
      line order, each as long as the line's field count and carrying the
      decoded flags; the result is ready for `FlightSeats.FromSeats`. */
  method LoadFromLines(lines: seq<string>) returns (seats: array<array?<Seat>>)
    ensures fresh(seats)
    ensures seats.Length == |lines|
    ensures forall i :: 0 <= i < seats.Length ==> seats[i] != null && fresh(seats[i])
    ensures forall i, j :: 0 <= i < seats.Length && seats[i] != null && 0 <= j < seats[i].Length ==> fresh(seats[i][j])
    ensures forall i :: 0 <= i < seats.Length ==> seats[i] != null && seats[i].Length == |DecodeLines(lines)[i]|
    ensures forall i, j :: 0 <= i < seats.Length && seats[i] != null && 0 <= j < seats[i].Length ==>
              seats[i][j].reserved == DecodeLines(lines)[i][j]
  {
    var output: seq<array<Seat>> := [];
    for i := 0 to |lines|
      invariant |output| == i
      invariant forall k :: 0 <= k < i ==> fresh(output[k])
      invariant forall k, j :: 0 <= k < i && 0 <= j < output[k].Length ==> fresh(output[k][j])
      invariant forall k :: 0 <= k < i ==> output[k].Length == |Split(lines[k])|
      invariant forall k, j :: 0 <= k < i && 0 <= j < output[k].Length ==>
                  output[k][j].reserved == DecodeRow(Split(lines[k]))[j]
    {
      var row := CreateRow(lines[i]);
      output := output + [row];
    }
    seats := new array?<Seat>[|output|](i requires 0 <= i < |output| => output[i]);
  }

  /** Saving a chart and loading the lines back into a new chart gives a
      chart with the same flags, none of whose seats is one of the
      saved chart's, whenever the chart has at least one column. */
  method SaveAndReload(flightSeats: FlightSeats) returns (r: Result<FlightSeats>)
    requires flightSeats.Valid() && flightSeats.ColLength() >= 1
    ensures r.Ok? && fresh(r.value) && fresh(r.value.Cells()) && r.value.Valid()
    ensures r.Ok? && r.value.Snapshot() == flightSeats.Snapshot()
  {
    var lines := SaveToLines(flightSeats);
    GridRoundTrip(flightSeats.Snapshot());
    var input := LoadFromLines(lines);
    r := FlightSeats.FromSeats(input);
    assert input.Length >= 1 && input[0] != null;
    r.value.SnapshotIs(flightSeats.Snapshot());
  }
}
