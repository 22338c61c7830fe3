/** The Show entity: a screening with a seat capacity and a price. */
module Shows {
  import opened Types

  /** What the booking core reads of a show row. Money is in cents. */
  datatype ShowRow = ShowRow(
    showTime: int,
    totalSeats: int,
    availableSeats: int,
    pricePerSeat: int,
    isActive: bool)

  class Show {
    const showId: int
    const movieId: int
    const showTime: int
    const screenName: string
    const totalSeats: int
    /** The only field of a show the booking core updates. */
    var availableSeats: int
    const pricePerSeat: int
    const isActive: bool

    /** Creating and persisting a show. When no available-seat count is
        supplied it starts equal to the capacity; a show is active unless
        told otherwise. */
    constructor (showId: int, movieId: int, showTime: int, screenName: string,
                 totalSeats: int, pricePerSeat: int,
                 availableSeats: Option<int> := None, isActive: bool := true)
      ensures this.showId == showId && this.movieId == movieId
      ensures this.showTime == showTime && this.screenName == screenName
      ensures this.totalSeats == totalSeats && this.pricePerSeat == pricePerSeat
      ensures this.isActive == isActive
      ensures availableSeats.None? ==> this.availableSeats == totalSeats
      ensures availableSeats.Some? ==> this.availableSeats == availableSeats.value
    {
      this.showId := showId;
      this.movieId := movieId;
      this.showTime := showTime;
      this.screenName := screenName;
      this.totalSeats := totalSeats;
      this.pricePerSeat := pricePerSeat;
      this.isActive := isActive;
      this.availableSeats := match availableSeats
        case None => totalSeats
        case Some(n) => n;
    }

    /** Sets the available-seat counter and nothing else. */
    method SetAvailableSeats(n: int)
      modifies this
      ensures availableSeats == n
    {
      availableSeats := n;
    }

    function Row(): ShowRow
      reads this
    {
      ShowRow(showTime, totalSeats, availableSeats, pricePerSeat, isActive)
    }
  }
}
