/** BookingService over the entity objects: the booking and cancellation
    transactions update seats, shows, promo codes and bookings in place.
    Each call is one transaction; a call that fails changes nothing. */
module BookingServices {
  import opened Types
  import opened Shows
  import opened Seats
  import opened PromoCodes
  import opened Bookings
  import opened BookingRules
  import BookingRepository
  import BookingProperties

  /** The rows of a sequence of bookings, in order. */
  function Rows(bs: seq<Booking>): (r: seq<BookingRow>)
    reads bs
    ensures |r| == |bs|
    ensures forall i | 0 <= i < |bs| :: r[i] == bs[i].Row()
  {
    if bs == [] then [] else Rows(bs[..|bs| - 1]) + [bs[|bs| - 1].Row()]
  }

  /** The show table as the queries see it. */
  function ShowRows(shows: map<int, Show>): (r: map<int, ShowRow>)
    reads shows.Values
    ensures r.Keys == shows.Keys
  {
    map id | id in shows :: shows[id].Row()
  }

  /** The seat table as the queries see it. */
  function SeatRows(seats: map<int, Seat>): (r: map<int, SeatRow>)
    reads seats.Values
    ensures r.Keys == seats.Keys
  {
    map id | id in seats :: seats[id].Row()
  }

  /** The promo code table as the queries see it. */
  function PromoRows(promoCodes: map<string, PromoCode>): (r: map<string, PromoRow>)
    reads promoCodes.Values
    ensures r.Keys == promoCodes.Keys
  {
    map c | c in promoCodes :: promoCodes[c].Row()
  }

  class BookingService {
    /** The ids of the registered users. */
    var users: set<int>
    var shows: map<int, Show>
    var seats: map<int, Seat>
    /** Promo codes by their unique code string. */
    var promoCodes: map<string, PromoCode>
    /** The booking ledger; booking id k is entry k - 1. */
    var bookings: seq<Booking>

    /** The object graph: every entity is filed under its own key, and
        every booking's show and seats are the stored objects. */
    ghost predicate Valid()
      reads this
    {
      && (forall id | id in shows :: shows[id].showId == id)
      && (forall id | id in seats :: seats[id].seatId == id)
      && (forall c | c in promoCodes :: promoCodes[c].code == c)
      && (forall i | 0 <= i < |bookings| ::
            && bookings[i].show.showId in shows
            && shows[bookings[i].show.showId] == bookings[i].show
            && forall s | s in bookings[i].seats :: s.seatId in seats && seats[s.seatId] == s)
      && (forall i, j | 0 <= i < j < |bookings| :: bookings[i] != bookings[j])
    }

    /** The service's own fields are as they were on entry. */
    twostate predicate Unchanged()
      reads this
    {
      && users == old(users) && shows == old(shows) && seats == old(seats)
      && promoCodes == old(promoCodes) && bookings == old(bookings)
    }

    /** The tables as the queries see them. */
    function Tables(): Db
      reads this, shows.Values, seats.Values, promoCodes.Values, bookings
    {
      Db(users, ShowRows(shows), SeatRows(seats), PromoRows(promoCodes), Rows(bookings))
    }

    constructor (users: set<int>, shows: map<int, Show>, seats: map<int, Seat>,
                 promoCodes: map<string, PromoCode>)
      requires forall id | id in shows :: shows[id].showId == id
      requires forall id | id in seats :: seats[id].seatId == id
      requires forall c | c in promoCodes :: promoCodes[c].code == c
      ensures Valid()
      ensures this.users == users && this.shows == shows && this.seats == seats
      ensures this.promoCodes == promoCodes && bookings == []
    {
      this.users := users;
      this.shows := shows;
      this.seats := seats;
      this.promoCodes := promoCodes;
      bookings := [];
    }

    /** Sets the booked flag of each given seat, one seat at a time. */
    method SetSeatsBooked(chosen: set<Seat>, booked: bool)
      requires Valid()
      requires forall s | s in chosen :: s.seatId in seats && seats[s.seatId] == s
      modifies chosen
      ensures Valid() && Unchanged()
      ensures Tables() == BookingRules.SetSeatsBooked(old(Tables()), IdsOf(chosen), booked)
    {
      var todo := chosen;
      while todo != {}
        invariant todo <= chosen
        invariant forall s | s in chosen :: s.isBooked == if s in todo then old(s.isBooked) else booked
        decreases |todo|
      {
        var seat :| seat in todo;
        seat.SetIsBooked(booked);
        todo := todo - {seat};
      }
      assert SeatRows(seats) == MarkSeats(old(SeatRows(seats)), IdsOf(chosen), booked) by {
        forall id | id in seats
          ensures SeatRows(seats)[id] == MarkSeats(old(SeatRows(seats)), IdsOf(chosen), booked)[id]
        {
          if id in IdsOf(chosen) {
            var s :| s in chosen && s.seatId == id;
          }
        }
      }
      assert ShowRows(shows) == old(ShowRows(shows));
      assert PromoRows(promoCodes) == old(PromoRows(promoCodes));
      assert Rows(bookings) == old(Rows(bookings));
    }

    /** Moves a show's available-seat counter by delta. */
    method AddAvailableSeats(show: Show, delta: int)
      requires Valid() && show.showId in shows && shows[show.showId] == show
      modifies show
      ensures Valid() && Unchanged()
      ensures Tables() == BookingRules.AddAvailableSeats(old(Tables()), show.showId, delta)
    {
      show.SetAvailableSeats(show.availableSeats + delta);
      forall id | id in shows
        ensures var t := old(ShowRows(shows));
          ShowRows(shows)[id] == t[show.showId := t[show.showId].(availableSeats := t[show.showId].availableSeats + delta)][id]
      {
      }
      assert SeatRows(seats) == old(SeatRows(seats));
      assert PromoRows(promoCodes) == old(PromoRows(promoCodes));
      assert Rows(bookings) == old(Rows(bookings));
    }

    /** Counts one more use of a promo code. */
    method CountPromoUse(promo: PromoCode)
      requires Valid() && promo.code in promoCodes && promoCodes[promo.code] == promo
      modifies promo
      ensures Valid() && Unchanged()
      ensures Tables() == BookingRules.CountPromoUse(old(Tables()), promo.code)
    {
      promo.SetCurrentUses(promo.currentUses + 1);
      forall c | c in promoCodes
        ensures var t := old(PromoRows(promoCodes));
          PromoRows(promoCodes)[c] == t[promo.code := t[promo.code].(currentUses := t[promo.code].currentUses + 1)][c]
      {
      }
      assert SeatRows(seats) == old(SeatRows(seats));
      assert ShowRows(shows) == old(ShowRows(shows));
      assert Rows(bookings) == old(Rows(bookings));
    }

    /** Saves a new booking: appends it to the ledger. */
    method SaveBooking(booking: Booking)
      requires Valid() && booking !in bookings
      requires booking.show.showId in shows && shows[booking.show.showId] == booking.show
      requires forall s | s in booking.seats :: s.seatId in seats && seats[s.seatId] == s
      modifies this`bookings
      ensures Valid()
      ensures users == old(users) && shows == old(shows) && seats == old(seats)
      ensures promoCodes == old(promoCodes)
      ensures bookings == old(bookings) + [booking]
      ensures Tables() == BookingRules.SaveBooking(old(Tables()), booking.Row())
    {
      bookings := bookings + [booking];
      assert Rows(bookings) == old(Rows(bookings)) + [booking.Row()];
      assert SeatRows(seats) == old(SeatRows(seats));
      assert ShowRows(shows) == old(ShowRows(shows));
      assert PromoRows(promoCodes) == old(PromoRows(promoCodes));
    }

    /** Sets the status of the booking at ledger position i. */
    method SetStatus(i: nat, status: BookingStatus)
      requires Valid() && i < |bookings|
      modifies bookings[i]
      ensures Valid() && Unchanged()
      ensures Tables() == BookingRules.SetStatus(old(Tables()), i, status)
    {
      bookings[i].SetBookingStatus(status);
      assert Rows(bookings) == old(Rows(bookings))[i := old(Rows(bookings))[i].(status := status)];
      assert SeatRows(seats) == old(SeatRows(seats));
      assert ShowRows(shows) == old(ShowRows(shows));
      assert PromoRows(promoCodes) == old(PromoRows(promoCodes));
    }

    /** Marks the locked seats booked and lowers their show's counter by
        the number of seats requested. */
    method TakeSeats(locked: set<Seat>, show: Show, requested: int)
      requires Valid() && show.showId in shows && shows[show.showId] == show
      requires forall s | s in locked :: s.seatId in seats && seats[s.seatId] == s
      modifies locked, show
      ensures Valid() && Unchanged()
      ensures Tables() == BookingRules.AddAvailableSeats(
        BookingRules.SetSeatsBooked(old(Tables()), IdsOf(locked), true), show.showId, -requested)
    {
      SetSeatsBooked(locked, true);
      AddAvailableSeats(show, -requested);
    }

    /** The writes of createBooking once every check has passed: the seats
        are marked booked, the show's counter drops, the booking is saved
        and the promo code's use is counted. */
    method Persist(booking: Booking, locked: set<Seat>, appliedPromo: PromoCode?)
      requires Valid() && booking !in bookings
      requires booking.show.showId in shows && shows[booking.show.showId] == booking.show
      requires booking.seats == locked && booking.promoCode == appliedPromo
      requires forall s | s in locked :: s.seatId in seats && seats[s.seatId] == s
      requires appliedPromo != null ==> appliedPromo.code in promoCodes && promoCodes[appliedPromo.code] == appliedPromo
      modifies this, booking.show, locked, appliedPromo
      ensures Valid()
      ensures users == old(users) && shows == old(shows) && seats == old(seats)
      ensures promoCodes == old(promoCodes) && bookings == old(bookings) + [booking]
      ensures booking.Row() == old(booking.Row())
      ensures Tables() == ApplyBooking(old(Tables()), old(booking.Row()))
    {
      ghost var before := Tables();
      ghost var row := booking.Row();
      assert IdsOf(locked) == row.seatIds;
      assert booking.show.showId == row.showId && booking.totalSeats == row.totalSeats;
      TakeSeats(locked, booking.show, booking.totalSeats);
      ghost var taken := Tables();
      assert taken == BookingRules.AddAvailableSeats(
        BookingRules.SetSeatsBooked(before, row.seatIds, true), row.showId, -row.totalSeats);
      assert booking.Row() == row;
      Record(booking, appliedPromo);
      ApplyBookingSteps(before, row);
    }

    /** Saves the booking and counts the use of the promo code it applied. */
    method Record(booking: Booking, appliedPromo: PromoCode?)
      requires Valid() && booking !in bookings
      requires booking.show.showId in shows && shows[booking.show.showId] == booking.show
      requires forall s | s in booking.seats :: s.seatId in seats && seats[s.seatId] == s
      requires booking.promoCode == appliedPromo
      requires appliedPromo != null ==> appliedPromo.code in promoCodes && promoCodes[appliedPromo.code] == appliedPromo
      modifies this, appliedPromo
      ensures Valid()
      ensures users == old(users) && shows == old(shows) && seats == old(seats)
      ensures promoCodes == old(promoCodes) && bookings == old(bookings) + [booking]
      ensures booking.Row() == old(booking.Row())
      ensures var saved := BookingRules.SaveBooking(old(Tables()), old(booking.Row()));
        Tables() == if appliedPromo != null then BookingRules.CountPromoUse(saved, appliedPromo.code) else saved
    {
      ghost var row := booking.Row();
      SaveBooking(booking);
      ghost var saved := Tables();
      assert booking.Row() == row;
      if appliedPromo != null {
        CountPromoUse(appliedPromo);
      }
    }

    /** Builds the booking the checks have approved, holding the seats the
        locked query returned, and persists it. */
    method CommitBooking(row: BookingRow) returns (booking: Booking)
      requires Valid()
      requires row.showId in shows && row.seatIds <= seats.Keys
      requires row.status == Confirmed
      requires row.promoCode.Some? ==> row.promoCode.value in promoCodes
      modifies this, shows.Values, seats.Values, promoCodes.Values
      ensures Valid()
      ensures users == old(users) && shows == old(shows) && seats == old(seats)
      ensures promoCodes == old(promoCodes)
      ensures fresh(booking) && booking.Row() == row && bookings == old(bookings) + [booking]
      ensures Tables() == ApplyBooking(old(Tables()), row)
    {
      var show := shows[row.showId];
      var appliedPromo: PromoCode? := null;
      if row.promoCode.Some? {
        appliedPromo := promoCodes[row.promoCode.value];
      }
      // the seats the locked query returned
      var locked := set id | id in row.seatIds :: seats[id];
      assert IdsOf(locked) == row.seatIds by {
        forall id | id in row.seatIds ensures id in IdsOf(locked) {
          assert seats[id] in locked;
        }
      }
      booking := new Booking(row.bookingId, row.userId, show, row.reference, row.totalSeats,
                             row.totalAmount, row.finalAmount, row.bookingTime, locked,
                             row.discountAmount, appliedPromo);
      assert booking.Row() == row;
      assert ShowRows(shows) == old(ShowRows(shows));
      assert SeatRows(seats) == old(SeatRows(seats));
      assert PromoRows(promoCodes) == old(PromoRows(promoCodes));
      assert Rows(bookings) == old(Rows(bookings));
      Persist(booking, locked, appliedPromo);
    }

    /** createBooking: runs every check and, only if all of them pass,
        books the seats, lowers the show's counter, saves the booking and
        counts the promo code's use. */
    method CreateBooking(userId: int, showId: int, seatIds: seq<int>,
                         promoCode: Option<string>, now: int, uuid: string)
      returns (r: Result<Booking, Error>)
      requires Valid() && |uuid| >= 8
      modifies this, shows.Values, seats.Values, promoCodes.Values
      ensures Valid()
      ensures users == old(users) && shows == old(shows) && seats == old(seats)
      ensures promoCodes == old(promoCodes)
      ensures var plan := old(PlanBooking(Tables(), userId, showId, seatIds, promoCode, now, uuid));
        && (plan.Failure? ==> r == Failure(plan.error) && bookings == old(bookings) && Tables() == old(Tables()))
        && (plan.Success? ==>
              && r.Success? && fresh(r.value) && r.value.Row() == plan.value
              && bookings == old(bookings) + [r.value]
              && Tables() == ApplyBooking(old(Tables()), plan.value))
      ensures old(WellFormed(Tables())) ==> WellFormed(Tables())
      ensures old(Consistent(Tables())) ==> Consistent(Tables())
    {
      ghost var before := Tables();
      var plan := PlanBooking(Tables(), userId, showId, seatIds, promoCode, now, uuid);
      if plan.Failure? {
        return Failure(plan.error);
      }
      var row := plan.value;
      BookingProperties.BookingEffects(before, userId, showId, seatIds, promoCode, now, uuid, row);
      var booking := CommitBooking(row);
      r := Success(booking);
      if WellFormed(before) {
        BookingProperties.BookingPreservesWellFormed(before, userId, showId, seatIds, promoCode, now, uuid, row);
      }
      if Consistent(before) {
        BookingProperties.BookingPreservesConsistency(before, userId, showId, seatIds, promoCode, now, uuid, row);
      }
    }

    /** The writes of cancelBooking once its checks have passed: the
        booking at ledger position i becomes CANCELLED, its seats are
        released and its show gets its seats back. */
    method ReleaseBooking(i: nat)
      requires Valid() && i < |bookings| && bookings[i].bookingStatus == Confirmed
      modifies bookings[i], bookings[i].seats, bookings[i].show
      ensures Valid() && Unchanged()
      ensures Tables() == ApplyCancel(old(Tables()), i)
      ensures old(WellFormed(Tables())) ==> WellFormed(Tables())
      ensures old(WellFormed(Tables()) && Consistent(Tables())) ==> Consistent(Tables())
    {
      ghost var before := Tables();
      var booking := bookings[i];
      ghost var row := before.bookings[i];
      assert row == booking.Row();
      assert IdsOf(booking.seats) == row.seatIds;
      assert booking.show.showId == row.showId && booking.totalSeats == row.totalSeats;

      SetStatus(i, Cancelled);
      ghost var cancelled := Tables();
      assert cancelled == BookingRules.SetStatus(before, i, Cancelled);
      SetSeatsBooked(booking.seats, false);
      ghost var released := Tables();
      assert released == BookingRules.SetSeatsBooked(cancelled, row.seatIds, false);
      AddAvailableSeats(booking.show, booking.totalSeats);
      assert Tables() == BookingRules.AddAvailableSeats(released, row.showId, row.totalSeats);
      if WellFormed(before) {
        BookingProperties.CancelPreservesInvariants(before, i);
      }
    }

    /** cancelBooking: the booking must exist, belong to the caller unless
        the caller is an admin, and not be cancelled already; then it
        becomes CANCELLED, its seats are released and its show gets the
        seats back. The promo code's use count is left as it is. */
    method CancelBooking(bookingId: int, userId: int, isAdmin: bool) returns (r: Option<Error>)
      requires Valid()
      modifies bookings, seats.Values, shows.Values
      ensures Valid() && Unchanged()
      ensures var plan := old(PlanCancel(Tables(), bookingId, userId, isAdmin));
        && (plan.Failure? ==> r == Some(plan.error) && Tables() == old(Tables()))
        && (plan.Success? ==> r == None && Tables() == ApplyCancel(old(Tables()), plan.value))
      ensures old(WellFormed(Tables())) ==> WellFormed(Tables())
      ensures old(WellFormed(Tables()) && Consistent(Tables())) ==> Consistent(Tables())
    {
      var plan := CheckCancel(bookingId, userId, isAdmin);
      if plan.Failure? {
        r := Some(plan.error);
      } else {
        assert Tables().bookings[plan.value] == bookings[plan.value].Row();
        ReleaseBooking(plan.value);
        r := None;
      }
    }

    /** The checks cancelBooking makes before its first write, in its order:
        the booking must exist, the caller must own it or be an admin, and
        it must not be cancelled already. */
    method CheckCancel(bookingId: int, userId: int, isAdmin: bool) returns (r: Result<nat, Error>)
      requires Valid()
      ensures r == PlanCancel(Tables(), bookingId, userId, isAdmin)
    {
      if !(1 <= bookingId <= |bookings|) {
        r := Failure(ResourceNotFound(BookingResource));
      } else {
        var booking := bookings[bookingId - 1];
        assert Tables().bookings[bookingId - 1] == booking.Row();
        if !isAdmin && booking.userId != userId {
          r := Failure(Unauthorized);
        } else if booking.bookingStatus == Cancelled {
          r := Failure(BusinessRule(AlreadyCancelled));
        } else {
          r := Success(bookingId - 1);
        }
      }
    }

    /** getUserBookings: the user's bookings, newest first. */
    method GetUserBookings(userId: int) returns (r: seq<BookingRow>)
      ensures BookingRepository.NewestFirst(r)
      ensures multiset(r) == multiset(BookingRepository.BookingsOfUser(Rows(bookings), userId))
      ensures forall b :: b in r <==> b in Rows(bookings) && b.userId == userId
    {
      r := BookingRepository.FindByUserUserIdOrderByBookingTimeDesc(Rows(bookings), userId);
    }
  }
}
