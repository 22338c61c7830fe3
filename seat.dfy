/** The Seat entity: one bookable seat of one show. */
module Seats {

  /** What the queries of the core see of a seat row. */
  datatype SeatRow = SeatRow(showId: int, isBooked: bool)

  class Seat {
    const seatId: int
    /** The owning show; a seat never moves to another show. */
    const showId: int
    const rowName: string
    const seatNumber: string
    var isBooked: bool

    /** A new seat belongs to the given show and starts unbooked. */
    constructor (seatId: int, showId: int, rowName: string, seatNumber: string)
      ensures this.seatId == seatId && this.showId == showId
      ensures this.rowName == rowName && this.seatNumber == seatNumber
      ensures !isBooked
    {
      this.seatId := seatId;
      this.showId := showId;
      this.rowName := rowName;
      this.seatNumber := seatNumber;
      isBooked := false;
    }

    /** Sets the booked flag and nothing else. */
    method SetIsBooked(booked: bool)
      modifies this
      ensures isBooked == booked
    {
      isBooked := booked;
    }

    function Row(): SeatRow
      reads this
    {
      SeatRow(showId, isBooked)
    }
  }

  /** The ids of a set of seats. */
  function IdsOf(ss: set<Seat>): set<int>
  {
    set s | s in ss :: s.seatId
  }
}
