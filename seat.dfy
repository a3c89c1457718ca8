/** A single seat of the flight: one mutable reservation flag. */
module Seats {

  class Seat {
    var reserved: bool

    /** A new seat is available. */
    constructor ()
      ensures !reserved
    {
      reserved := false;
    }

    /** The copy construction the grid's deep copy relies on: a fresh seat
        carrying the other seat's flag. */
    constructor CopyOf(other: Seat)
      ensures reserved == other.reserved
    {
      reserved := other.reserved;
    }

    /** Being a function, reading the flag cannot change any state. */
    function IsReserved(): (b: bool)
      reads this
      ensures b <==> reserved
    {
      reserved
    }

    /** Afterwards the seat is reserved whatever it was before, so reserving
        twice leaves the same state as reserving once. */
    method Reserve()
      modifies this
      ensures reserved
    {
      reserved := true;
    }

    /** Afterwards the seat is available whatever it was before, so cancelling
        twice leaves the same state as cancelling once, and reserve followed by
        cancel gives back a new seat's state. */
    method Cancel()
      modifies this
      ensures !reserved
    {
      reserved := false;
    }
  }
}
