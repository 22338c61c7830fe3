/** The Booking entity: one reservation of one or more seats by one user. */
module Bookings {
  import opened Types
  import opened Shows
  import opened Seats
  import opened PromoCodes

  /** What the queries of the core see of a booking row. Money is in cents;
      the promo code is identified by its (unique) code string and the seats
      by their ids. */
  datatype BookingRow = BookingRow(
    bookingId: int,
    userId: int,
    showId: int,
    reference: string,
    totalSeats: int,
    totalAmount: int,
    discountAmount: int,
    finalAmount: int,
    promoCode: Option<string>,
    status: BookingStatus,
    seatIds: set<int>,
    bookingTime: int)

  class Booking {
    const bookingId: int
    const userId: int
    const show: Show
    const bookingReference: string
    const totalSeats: int
    const totalAmount: int
    const discountAmount: int
    const finalAmount: int
    /** null when no promotion was applied. */
    const promoCode: PromoCode?
    /** Stamped once, when the booking is persisted; there is no setter. */
    const bookingTime: int
    var bookingStatus: BookingStatus
    /** A set, so a booking never holds the same seat twice. It is filled
        once, before the booking is first saved. */
    const seats: set<Seat>

    /** Creating a booking: it starts CONFIRMED; the discount is zero and
        the promo code absent unless given. */
    constructor (bookingId: int, userId: int, show: Show, bookingReference: string,
                 totalSeats: int, totalAmount: int, finalAmount: int, bookingTime: int,
                 seats: set<Seat>, discountAmount: int := 0, promoCode: PromoCode? := null)
      ensures this.bookingId == bookingId && this.userId == userId && this.show == show
      ensures this.bookingReference == bookingReference && this.totalSeats == totalSeats
      ensures this.totalAmount == totalAmount && this.finalAmount == finalAmount
      ensures this.discountAmount == discountAmount && this.promoCode == promoCode
      ensures this.bookingTime == bookingTime
      ensures this.seats == seats && bookingStatus == Confirmed
    {
      this.bookingId := bookingId;
      this.userId := userId;
      this.show := show;
      this.bookingReference := bookingReference;
      this.totalSeats := totalSeats;
      this.totalAmount := totalAmount;
      this.finalAmount := finalAmount;
      this.bookingTime := bookingTime;
      this.discountAmount := discountAmount;
      this.promoCode := promoCode;
      this.seats := seats;
      bookingStatus := Confirmed;
    }

    /** Sets the status and changes nothing else. */
    method SetBookingStatus(status: BookingStatus)
      modifies this
      ensures bookingStatus == status
    {
      bookingStatus := status;
    }

    function Row(): BookingRow
      reads this
    {
      BookingRow(bookingId, userId, show.showId, bookingReference, totalSeats,
                 totalAmount, discountAmount, finalAmount,
                 if promoCode == null then None else Some(promoCode.code),
                 bookingStatus, IdsOf(seats), bookingTime)
    }
  }
}
