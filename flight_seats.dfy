/** The seating chart of one flight (FlightSeats.java). */
module FlightSeating {
  import opened Results
  import opened Seats
  import Grid

  const DEFAULT_ROW_LENGTH: nat := 20
  const DEFAULT_COL_LENGTH: nat := 8

  /** The seat objects, row by row.  As in FlightSeats.java, the grid's shape is
      fixed when it is built (`seats` is a constant) and only the seats' flags
      change afterwards. */
  class FlightSeats {
    const seats: seq<seq<Seat>>

    /** Which cell each seat object occupies: every cell has its own seat, and
        no seat is shared between two cells. */
    ghost const Position: map<Seat, (int, int)>

    /** The grid is rectangular with at least one row, and `Position` is a
        bijection between the cells and the seat objects. */
    ghost predicate Valid() {
      && |seats| >= 1
      && (forall i :: 0 <= i < |seats| ==> |seats[i]| == |seats[0]|)
      && (forall i, j :: 0 <= i < |seats| && 0 <= j < |seats[i]| ==>
            seats[i][j] in Position && Position[seats[i][j]] == (i, j))
      && (forall s :: s in Position ==>
            var (i, j) := Position[s]; 0 <= i < |seats| && 0 <= j < |seats[i]| && seats[i][j] == s)
    }

    /** The seat objects of the grid: the only objects the booking operations change. */
    ghost function Cells(): set<Seat> {
      Position.Keys
    }

    /** The reserved flag of every seat, row by row. */
    function Snapshot(): (g: Grid.Flags)
      requires Valid()
      reads Cells()
      ensures |g| == |seats|
      ensures forall i :: 0 <= i < |seats| ==> |g[i]| == |seats[i]|
      ensures forall i, j :: 0 <= i < |seats| && 0 <= j < |seats[i]| ==> g[i][j] == seats[i][j].reserved
      ensures Grid.Rectangular(g)
    {
      seq(|seats|, i requires 0 <= i < |seats| reads Cells() =>
        seq(|seats[i]|, j requires 0 <= j < |seats[i]| reads Cells() => seats[i][j].reserved))
    }

    /** A grid value that agrees with every seat's flag is the snapshot. */
    lemma SnapshotIs(g: Grid.Flags)
      requires Valid()
      requires |g| == |seats| && forall i :: 0 <= i < |seats| ==> |g[i]| == |seats[i]|
      requires forall i, j :: 0 <= i < |seats| && 0 <= j < |seats[i]| ==> g[i][j] == seats[i][j].reserved
      ensures Snapshot() == g
    {
      forall i | 0 <= i < |seats| ensures Snapshot()[i] == g[i] {
        assert forall j :: 0 <= j < |seats[i]| ==> Snapshot()[i][j] == g[i][j];
      }
    }

    /** The default chart: 20 rows of 8 available seats. */
    constructor ()
      ensures Valid() && fresh(Cells())
      ensures |seats| == DEFAULT_ROW_LENGTH
      ensures forall i :: 0 <= i < |seats| ==> |seats[i]| == DEFAULT_COL_LENGTH
      ensures forall i, j :: 0 <= i < |seats| && 0 <= j < |seats[i]| ==> !seats[i][j].reserved
    {
      var rows: seq<seq<Seat>> := [];
      ghost var pos: map<Seat, (int, int)> := map[];
      for i := 0 to DEFAULT_ROW_LENGTH
        invariant |rows| == i
        invariant forall k :: 0 <= k < i ==> |rows[k]| == DEFAULT_COL_LENGTH
        invariant forall k, j :: 0 <= k < i && 0 <= j < DEFAULT_COL_LENGTH ==>
                    !rows[k][j].reserved && rows[k][j] in pos && pos[rows[k][j]] == (k, j)
        invariant forall s :: s in pos ==>
                    fresh(s) && var (k, j) := pos[s]; 0 <= k < i && 0 <= j < DEFAULT_COL_LENGTH && rows[k][j] == s
      {
        var row: seq<Seat> := [];
        for j := 0 to DEFAULT_COL_LENGTH
          modifies {}
          invariant |row| == j
          invariant forall k, l :: 0 <= k < i && 0 <= l < DEFAULT_COL_LENGTH ==> rows[k][l] in pos && pos[rows[k][l]] == (k, l)
          invariant forall l :: 0 <= l < j ==> !row[l].reserved && row[l] in pos && pos[row[l]] == (i, l)
          invariant forall s :: s in pos ==>
                      fresh(s) && var (k, l) := pos[s];
                      || (0 <= k < i && 0 <= l < DEFAULT_COL_LENGTH && rows[k][l] == s)
                      || (k == i && 0 <= l < j && row[l] == s)
        {
          var seat := new Seat();
          row := row + [seat];
          pos := pos[seat := (i, j)];
        }
        rows := rows + [row];
      }
      seats := rows;
      Position := pos;
    }

    /** The deep copy at the heart of FlightSeats(Seat[][]), for an input that
        has already passed the constructor's checks; `FromSeats` is the whole
        constructor, checks included. */
    constructor Copy(input: array<array?<Seat>>)
      requires input.Length >= 1 && input[0] != null
      requires forall i :: 0 <= i < input.Length ==> input[i] != null && input[i].Length == input[0].Length
      ensures Valid() && fresh(Cells())
      ensures |seats| == input.Length
      ensures forall i :: 0 <= i < |seats| ==> |seats[i]| == input[0].Length
      ensures forall i, j :: 0 <= i < |seats| && 0 <= j < |seats[i]| ==> seats[i][j].reserved == input[i][j].reserved
    {
      var n, m := input.Length, input[0].Length;
      var rows: seq<seq<Seat>> := [];
      ghost var pos: map<Seat, (int, int)> := map[];
      for i := 0 to n
        invariant |rows| == i
        invariant forall k :: 0 <= k < i ==> |rows[k]| == m
        invariant forall k, j :: 0 <= k < i && 0 <= j < m ==>
                    rows[k][j].reserved == input[k][j].reserved && rows[k][j] in pos && pos[rows[k][j]] == (k, j)
        invariant forall s :: s in pos ==>
                    fresh(s) && var (k, j) := pos[s]; 0 <= k < i && 0 <= j < m && rows[k][j] == s
      {
        var row: seq<Seat> := [];
        for j := 0 to m
          modifies {}
          invariant |row| == j
          invariant forall k, l :: 0 <= k < i && 0 <= l < m ==> rows[k][l] in pos && pos[rows[k][l]] == (k, l)
          invariant forall l :: 0 <= l < j ==>
                      row[l].reserved == input[i][l].reserved && row[l] in pos && pos[row[l]] == (i, l)
          invariant forall s :: s in pos ==>
                      fresh(s) && var (k, l) := pos[s];
                      || (0 <= k < i && 0 <= l < m && rows[k][l] == s)
                      || (k == i && 0 <= l < j && row[l] == s)
        {
          var seat := new Seat.CopyOf(input[i][j]);
          row := row + [seat];
          pos := pos[seat := (i, j)];
        }
        rows := rows + [row];
      }
      seats := rows;
      Position := pos;
    }

    /** FlightSeats(Seat[][]): rejects a null or empty input or a null first
        row, then any null row or row whose length differs from the first; an
        accepted input is deep-copied into fresh seats with the same flags, so
        the new chart shares no seat with the input. */
    static method FromSeats(input: array?<array?<Seat>>) returns (r: Result<FlightSeats>)
      ensures (input == null || input.Length == 0 || input[0] == null) ==> r == Err(EmptySeatsArray)
      ensures input != null && input.Length > 0 && input[0] != null ==>
                (r.Ok? <==> forall i :: 0 <= i < input.Length ==> input[i] != null && input[i].Length == input[0].Length)
      ensures r.Err? ==> r.error == EmptySeatsArray || r.error == RaggedRows
      ensures input != null && input.Length > 0 && input[0] != null && r.Err? ==> r.error == RaggedRows
      ensures r.Ok? ==> input != null && input.Length > 0 && input[0] != null
      ensures r.Ok? ==> var fs := r.value;
                fresh(fs) && fresh(fs.Cells()) && fs.Valid() &&
                |fs.seats| == input.Length && |fs.seats[0]| == input[0].Length &&
                forall i, j :: 0 <= i < |fs.seats| && 0 <= j < |fs.seats[i]| ==>
                  input[i] != null && j < input[i].Length && fs.Snapshot()[i][j] == input[i][j].reserved
    {
      if input == null || input.Length == 0 || input[0] == null {
        return Err(EmptySeatsArray);
      }
      var cols := input[0].Length;
      for k := 0 to input.Length
        invariant forall i :: 0 <= i < k ==> input[i] != null && input[i].Length == cols
      {
        if input[k] == null || input[k].Length != cols {
          return Err(RaggedRows);
        }
      }
      var fs := new FlightSeats.Copy(input);
      return Ok(fs);
    }

    /** FlightSeats.isValidSeat: the row exists and the column exists in it. */
    predicate IsValidSeat(row: int, col: int)
      requires Valid()
      ensures IsValidSeat(row, col) <==> 0 <= row < RowLength() && 0 <= col < ColLength()
    {
      0 <= row < |seats| && 0 <= col < |seats[row]|
    }

    /** FlightSeats.getSeat: the seat object of a valid cell, which callers
        may then mutate; any other coordinates raise an exception. */
    function GetSeat(row: int, col: int): (r: Result<Seat>)
      requires Valid()
      ensures r.Ok? <==> 0 <= row < RowLength() && 0 <= col < ColLength()
      ensures r.Ok? ==> r.value == seats[row][col] && r.value in Cells() && Position[r.value] == (row, col)
      ensures r.Err? ==> r.error == InvalidSeatSelection
    {
      if IsValidSeat(row, col) then Ok(seats[row][col]) else Err(InvalidSeatSelection)
    }

    /** The number of rows; it reads no mutable state, so it never changes. */
    function RowLength(): (n: nat)
      requires Valid()
      ensures n >= 1 && n == |seats|
    {
      |seats|
    }

    /** The length of the first row, which every row shares; it reads no
        mutable state, so it never changes. */
    function ColLength(): (n: nat)
      requires Valid()
      ensures forall i :: 0 <= i < |seats| ==> |seats[i]| == n
    {
      |seats[0]|
    }
  }
}
