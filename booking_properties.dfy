/** What createBooking and cancelBooking promise, proved of their pure
    models in BookingRules. */
module BookingProperties {
  import opened Types
  import opened Shows
  import opened Seats
  import opened PromoCodes
  import opened Bookings
  import opened SeatRepository
  import BookingRepository
  import PromotionService
  import opened BookingRules

  /** createBooking raises the exception of the first check that fails, in
      the order: user, show, active, not past, at least one seat, enough
      seats, all requested seats free, all of this show, promo rules,
      unique reference. */
  lemma CreateBookingErrorOrder(db: Db, userId: int, showId: int, seatIds: seq<int>,
                                promoCode: Option<string>, now: int, uuid: string)
    requires |uuid| >= 8
    ensures var r := PlanBooking(db, userId, showId, seatIds, promoCode, now, uuid);
      && (r == Failure(ResourceNotFound(UserResource)) <==> userId !in db.users)
      && (r == Failure(ResourceNotFound(ShowResource)) <==> userId in db.users && showId !in db.shows)
      && (r == Failure(BusinessRule(ShowNotActive)) <==>
            userId in db.users && showId in db.shows && !db.shows[showId].isActive)
      && (r == Failure(BusinessRule(ShowInPast)) <==>
            userId in db.users && showId in db.shows && db.shows[showId].isActive
            && db.shows[showId].showTime < now)
      && (r == Failure(BusinessRule(NoSeatsSelected)) <==>
            ShowOpen(db, userId, showId, now) && |seatIds| == 0)
      && (r.Failure? && r.error.InsufficientSeats? <==>
            ShowOpen(db, userId, showId, now) && 0 < |seatIds| && |seatIds| > db.shows[showId].availableSeats)
      && (r.Failure? && r.error.InsufficientSeats? ==>
            r.error == InsufficientSeats(db.shows[showId].availableSeats, |seatIds|))
      && (r == Failure(SeatAlreadyBooked) <==>
            ShowOpen(db, userId, showId, now) && 0 < |seatIds| <= db.shows[showId].availableSeats
            && !SeatsFree(db, seatIds))
      && (r == Failure(BusinessRule(SeatOfOtherShow)) <==>
            ShowOpen(db, userId, showId, now) && 0 < |seatIds| <= db.shows[showId].availableSeats
            && SeatsFree(db, seatIds) && !SeatsBelongToShow(db, seatIds, showId))
      && (SeatsBookable(db, userId, showId, seatIds, now) && HasPromo(promoCode)
          && ValidateAndApplyPromo(db, promoCode.value, userId, |seatIds|, now).Failure? ==>
            r == Failure(ValidateAndApplyPromo(db, promoCode.value, userId, |seatIds|, now).error))
      && (r.Failure? && (r.error.InvalidPromoCode? || r.error == BusinessRule(FreeSeatNeedsTwoSeats)) <==>
            SeatsBookable(db, userId, showId, seatIds, now) && HasPromo(promoCode)
            && ValidateAndApplyPromo(db, promoCode.value, userId, |seatIds|, now).Failure?)
      && (r == Failure(DuplicateReference) <==>
            SeatsBookable(db, userId, showId, seatIds, now)
            && (HasPromo(promoCode) ==> ValidateAndApplyPromo(db, promoCode.value, userId, |seatIds|, now).Success?)
            && ReferenceTaken(db, GenerateBookingReference(uuid)))
      && (r.Success? <==>
            SeatsBookable(db, userId, showId, seatIds, now)
            && (HasPromo(promoCode) ==> ValidateAndApplyPromo(db, promoCode.value, userId, |seatIds|, now).Success?)
            && !ReferenceTaken(db, GenerateBookingReference(uuid)))
  {
    if ShowOpen(db, userId, showId, now) && 0 < |seatIds| <= db.shows[showId].availableSeats {
      FindAvailableExact(db.seats, seatIds);
      if SeatsFree(db, seatIds) {
        FoundAreRequested(db, showId, seatIds);
      }
    }
  }

  /** A request that names a seat which is already booked, or unknown, or
      the same seat twice, never succeeds. */
  lemma RequestForUnavailableSeatFails(db: Db, userId: int, showId: int, seatIds: seq<int>,
                                       promoCode: Option<string>, now: int, uuid: string)
    requires |uuid| >= 8
    requires || !Distinct(seatIds)
             || exists i :: 0 <= i < |seatIds| && (seatIds[i] !in db.seats || db.seats[seatIds[i]].isBooked)
    ensures PlanBooking(db, userId, showId, seatIds, promoCode, now, uuid).Failure?
  {
    assert !SeatsFree(db, seatIds);
  }

  /** Once a booking has been made, any later request naming one of its
      seats fails: no seat is booked twice. */
  lemma NoDoubleBooking(db: Db, b: BookingRow,
                        userId: int, showId: int, seatIds: seq<int>, promoCode: Option<string>, now: int, uuid: string,
                        userId': int, showId': int, seatIds': seq<int>, promoCode': Option<string>, now': int, uuid': string,
                        k: int)
    requires |uuid| >= 8 && |uuid'| >= 8
    requires PlanBooking(db, userId, showId, seatIds, promoCode, now, uuid) == Success(b)
    requires 0 <= k < |seatIds'| && seatIds'[k] in b.seatIds
    ensures PlanBooking(ApplyBooking(db, b), userId', showId', seatIds', promoCode', now', uuid').Failure?
  {
    var after := ApplyBooking(db, b);
    assert after.seats[seatIds'[k]].isBooked;
    RequestForUnavailableSeatFails(after, userId', showId', seatIds', promoCode', now', uuid');
  }

  /** One booking request, as the service receives it. */
  datatype Request = Request(userId: int, showId: int, seatIds: seq<int>,
                             promoCode: Option<string>, now: int, uuid: string)

  /** Serves requests one after the other, each as one atomic step; returns
      the final store and how many requests succeeded. */
  function ServeAll(db: Db, requests: seq<Request>): (r: (Db, nat))
    requires forall i :: 0 <= i < |requests| ==> |requests[i].uuid| >= 8
    ensures r.1 <= |requests|
    ensures |r.0.bookings| == |db.bookings| + r.1
    ensures r.0.bookings[..|db.bookings|] == db.bookings
    decreases |requests|
  {
    if requests == [] then (db, 0)
    else
      var q := requests[0];
      match PlanBooking(db, q.userId, q.showId, q.seatIds, q.promoCode, q.now, q.uuid)
      case Failure(_) => ServeAll(db, requests[1..])
      case Success(b) =>
        var (end, n) := ServeAll(ApplyBooking(db, b), requests[1..]);
        (end, n + 1)
  }

  /** Requests that all name the same seat: at most one of them succeeds,
      whatever order they are served in. */
  lemma {:induction false} AtMostOneRacerWins(db: Db, requests: seq<Request>, seat: int)
    requires forall i :: 0 <= i < |requests| ==> |requests[i].uuid| >= 8
    requires forall i :: 0 <= i < |requests| ==> seat in requests[i].seatIds
    ensures ServeAll(db, requests).1 <= 1
    ensures seat in db.seats && db.seats[seat].isBooked ==> ServeAll(db, requests).1 == 0
    decreases |requests|
  {
    if requests != [] {
      var q := requests[0];
      var rest := requests[1..];
      var r := PlanBooking(db, q.userId, q.showId, q.seatIds, q.promoCode, q.now, q.uuid);
      if seat in db.seats && db.seats[seat].isBooked {
        var k :| 0 <= k < |q.seatIds| && q.seatIds[k] == seat;
        RequestForUnavailableSeatFails(db, q.userId, q.showId, q.seatIds, q.promoCode, q.now, q.uuid);
        AtMostOneRacerWins(db, rest, seat);
      } else if r.Success? {
        var after := ApplyBooking(db, r.value);
        assert seat in r.value.seatIds;
        assert after.seats[seat].isBooked;
        AtMostOneRacerWins(after, rest, seat);
      } else {
        AtMostOneRacerWins(db, rest, seat);
      }
    }
  }

  /** A successful booking books exactly its seats, lowers its show's
      counter by exactly its seat count, counts one use of exactly the promo
      code it applied, appends itself, and changes nothing else. */
  lemma BookingEffects(db: Db, userId: int, showId: int, seatIds: seq<int>,
                       promoCode: Option<string>, now: int, uuid: string, b: BookingRow)
    requires |uuid| >= 8
    requires PlanBooking(db, userId, showId, seatIds, promoCode, now, uuid) == Success(b)
    ensures var after := ApplyBooking(db, b);
      && after.users == db.users
      && after.seats.Keys == db.seats.Keys
      && (forall id | id in db.seats ::
            after.seats[id].isBooked == (id in b.seatIds || db.seats[id].isBooked)
            && after.seats[id].showId == db.seats[id].showId)
      && (forall id | id in b.seatIds :: id in db.seats && !db.seats[id].isBooked)
      && after.shows.Keys == db.shows.Keys
      && after.shows[showId]
         == db.shows[showId].(availableSeats := db.shows[showId].availableSeats - |seatIds|)
      && (forall s | s in db.shows && s != showId :: after.shows[s] == db.shows[s])
      && after.promoCodes.Keys == db.promoCodes.Keys
      && (forall c | c in db.promoCodes ::
            after.promoCodes[c]
              == if HasPromo(promoCode) && c == promoCode.value
                 then db.promoCodes[c].(currentUses := db.promoCodes[c].currentUses + 1)
                 else db.promoCodes[c])
      && after.bookings == db.bookings + [b]
  {
    forall id | id in b.seatIds ensures id in db.seats && !db.seats[id].isBooked {
      var i :| 0 <= i < |seatIds| && seatIds[i] == id;
    }
    if HasPromo(promoCode) {
      assert promoCode.value in db.promoCodes;
    }
  }

  /** The new booking is not counted when the promo's eligibility is
      decided; it is counted afterwards. */
  lemma BookingCountsTowardsEligibilityAfterwards(db: Db, userId: int, showId: int, seatIds: seq<int>,
                                                  promoCode: Option<string>, now: int, uuid: string, b: BookingRow)
    requires |uuid| >= 8
    requires PlanBooking(db, userId, showId, seatIds, promoCode, now, uuid) == Success(b)
    ensures var after := ApplyBooking(db, b).bookings;
      && BookingRepository.CountConfirmedBookingsByUser(after, userId)
         == BookingRepository.CountConfirmedBookingsByUser(db.bookings, userId) + 1
      && BookingRepository.GetTotalSpendingByUser(after, userId)
         == BookingRepository.GetTotalSpendingByUser(db.bookings, userId) + b.finalAmount
  {
    BookingRepository.AppendBooking(db.bookings, b, userId);
  }

  /** With a FREE_SEAT code the customer pays for one seat fewer, and the
      discount never exceeds the total. */
  lemma FreeSeatPricing(db: Db, userId: int, showId: int, seatIds: seq<int>,
                        promoCode: Option<string>, now: int, uuid: string, b: BookingRow)
    requires |uuid| >= 8
    requires PlanBooking(db, userId, showId, seatIds, promoCode, now, uuid) == Success(b)
    requires HasPromo(promoCode) && db.promoCodes[promoCode.value].discountType == FreeSeat
    requires db.shows[showId].pricePerSeat >= 0
    ensures b.totalSeats >= 2
    ensures b.discountAmount == db.shows[showId].pricePerSeat
    ensures 0 <= b.discountAmount <= b.totalAmount
    ensures b.finalAmount == db.shows[showId].pricePerSeat * (b.totalSeats - 1)
  {
    var p := db.shows[showId].pricePerSeat;
    var n := |seatIds|;
    assert p * n == p * (n - 1) + p;
    assert p * (n - 1) >= p by {
      assert n - 1 >= 1;
      assert p * (n - 1) == p + p * (n - 2);
    }
  }

  /** A FLAT_DISCOUNT is the promo's value whatever the total: a booking
      the service accepts with a code worth more than its total has a
      negative final amount. Nothing caps the discount. */
  lemma FlatDiscountNotCapped(db: Db, userId: int, showId: int, seatIds: seq<int>,
                              promoCode: Option<string>, now: int, uuid: string, b: BookingRow)
    requires |uuid| >= 8
    requires PlanBooking(db, userId, showId, seatIds, promoCode, now, uuid) == Success(b)
    requires HasPromo(promoCode) && db.promoCodes[promoCode.value].discountType == FlatDiscount
    requires db.promoCodes[promoCode.value].discountValue > b.totalAmount
    ensures b.discountAmount == db.promoCodes[promoCode.value].discountValue
    ensures b.finalAmount < 0
  {
  }

  /** A successful booking keeps every show's counter equal to its capacity
      less its booked seats, and keeps every seat held by at most one
      confirmed booking. */
  lemma BookingPreservesConsistency(db: Db, userId: int, showId: int, seatIds: seq<int>,
                                    promoCode: Option<string>, now: int, uuid: string, b: BookingRow)
    requires |uuid| >= 8
    requires PlanBooking(db, userId, showId, seatIds, promoCode, now, uuid) == Success(b)
    requires Consistent(db)
    ensures Consistent(ApplyBooking(db, b))
  {
    BookingEffects(db, userId, showId, seatIds, promoCode, now, uuid, b);
    BookingKeepsCounters(db, b);
    BookingKeepsSeatsHeld(db, b);
    BookingKeepsCountersNonNegative(db, userId, showId, seatIds, promoCode, now, uuid, b);
    BookingKeepsCaps(db, userId, showId, seatIds, promoCode, now, uuid, b);
  }

  /** A code is only applied while it is under its cap, and applying it
      counts one use, so no code goes over its cap. */
  lemma BookingKeepsCaps(db: Db, userId: int, showId: int, seatIds: seq<int>,
                         promoCode: Option<string>, now: int, uuid: string, b: BookingRow)
    requires |uuid| >= 8
    requires PlanBooking(db, userId, showId, seatIds, promoCode, now, uuid) == Success(b)
    requires CapsRespected(db)
    ensures CapsRespected(ApplyBooking(db, b))
  {
    BookingEffects(db, userId, showId, seatIds, promoCode, now, uuid, b);
  }

  /** Cancelling does not touch the promo codes, so their caps stay
      respected. */
  lemma CancelKeepsCaps(db: Db, i: nat)
    requires WellFormed(db) && i < |db.bookings|
    requires CapsRespected(db)
    ensures CapsRespected(ApplyCancel(db, i))
  {
  }

  /** createBooking never takes more seats than its show has available, so
      no counter goes negative. */
  lemma BookingKeepsCountersNonNegative(db: Db, userId: int, showId: int, seatIds: seq<int>,
                                        promoCode: Option<string>, now: int, uuid: string, b: BookingRow)
    requires |uuid| >= 8
    requires PlanBooking(db, userId, showId, seatIds, promoCode, now, uuid) == Success(b)
    requires CountersNonNegative(db)
    ensures CountersNonNegative(ApplyBooking(db, b))
  {
    BookingEffects(db, userId, showId, seatIds, promoCode, now, uuid, b);
  }

  /** Cancelling gives back the seats a confirmed booking holds, a
      non-negative number, so no counter goes negative. */
  lemma CancelKeepsCountersNonNegative(db: Db, i: nat)
    requires WellFormed(db) && SeatsHeld(db) && CountersNonNegative(db)
    requires i < |db.bookings| && db.bookings[i].status == Confirmed
    ensures CountersNonNegative(ApplyCancel(db, i))
  {
    assert IsConfirmed(db, i);
    assert HoldsSeats(db, db.bookings[i]);
  }

  /** The counter of the booked show drops by exactly the seats that
      become booked. */
  lemma BookingKeepsCounters(db: Db, b: BookingRow)
    requires b.showId in db.shows && (b.promoCode.Some? ==> b.promoCode.value in db.promoCodes)
    requires b.seatIds <= db.seats.Keys && |b.seatIds| == b.totalSeats
    requires forall id | id in b.seatIds :: !db.seats[id].isBooked && db.seats[id].showId == b.showId
    requires CountersAgree(db)
    ensures CountersAgree(ApplyBooking(db, b))
  {
    var after := ApplyBooking(db, b);
    assert after.seats == MarkSeats(db.seats, b.seatIds, true);
    forall s | s in after.shows
      ensures after.shows[s].availableSeats == after.shows[s].totalSeats - |BookedSeatsOfShow(after.seats, s)|
    {
      var was := BookedSeatsOfShow(db.seats, s);
      var now := BookedSeatsOfShow(after.seats, s);
      if s == b.showId {
        forall id | id in b.seatIds ensures id !in was && id in now {}
        forall id | id in now ensures id in was || id in b.seatIds {}
        forall id | id in was ensures id in now {}
        assert now == was + b.seatIds;
        assert was !! b.seatIds;
      } else {
        forall id | id in now ensures id in was {}
        forall id | id in was ensures id in now {}
        assert now == was;
      }
    }
  }

  /** The new booking's seats were free, so they are held by no earlier
      confirmed booking. */
  lemma BookingKeepsSeatsHeld(db: Db, b: BookingRow)
    requires b.showId in db.shows && (b.promoCode.Some? ==> b.promoCode.value in db.promoCodes)
    requires b.status == Confirmed
    requires b.seatIds <= db.seats.Keys && |b.seatIds| == b.totalSeats
    requires forall id | id in b.seatIds :: !db.seats[id].isBooked && db.seats[id].showId == b.showId
    requires SeatsHeld(db)
    ensures SeatsHeld(ApplyBooking(db, b))
  {
    var after := ApplyBooking(db, b);
    forall i | IsConfirmed(after, i) ensures HoldsSeats(after, after.bookings[i]) {
      if i < |db.bookings| {
        assert IsConfirmed(db, i);
        assert after.bookings[i] == db.bookings[i];
      }
    }
    forall i, j | IsConfirmed(after, i) && IsConfirmed(after, j) && i != j
      ensures after.bookings[i].seatIds !! after.bookings[j].seatIds
    {
      if i < |db.bookings| && j < |db.bookings| {
        assert IsConfirmed(db, i) && IsConfirmed(db, j);
      } else if i < |db.bookings| {
        HeldSeatsNotFree(db, i, b);
      } else {
        HeldSeatsNotFree(db, j, b);
      }
    }
  }

  /** A confirmed booking's seats are booked, so they are none of the
      seats a new booking takes. */
  lemma HeldSeatsNotFree(db: Db, i: int, b: BookingRow)
    requires SeatsHeld(db) && IsConfirmed(db, i)
    requires b.seatIds <= db.seats.Keys
    requires forall id | id in b.seatIds :: !db.seats[id].isBooked
    ensures db.bookings[i].seatIds !! b.seatIds
  {
    assert HoldsSeats(db, db.bookings[i]);
    forall id | id in db.bookings[i].seatIds ensures id !in b.seatIds {
      assert db.seats[id].isBooked;
    }
  }

  /** Cancelling a confirmed booking keeps every show's counter equal to
      its capacity less its booked seats, and keeps seats held by at most one
      confirmed booking. */
  lemma CancelPreservesConsistency(db: Db, i: nat)
    requires WellFormed(db) && Consistent(db)
    requires i < |db.bookings| && db.bookings[i].status == Confirmed
    ensures Consistent(ApplyCancel(db, i))
  {
    var b := db.bookings[i];
    var after := ApplyCancel(db, i);
    assert IsConfirmed(db, i) && HoldsSeats(db, b);
    forall s | s in after.shows
      ensures after.shows[s].availableSeats == after.shows[s].totalSeats - |BookedSeatsOfShow(after.seats, s)|
    {
      if s == b.showId {
        var before := BookedSeatsOfShow(db.seats, s);
        forall id | id in b.seatIds ensures id in before {
          assert id in db.seats && db.seats[id].isBooked && db.seats[id].showId == b.showId;
        }
        assert BookedSeatsOfShow(after.seats, s) == before - b.seatIds;
        assert before == (before - b.seatIds) + b.seatIds;
      } else {
        forall id | id in b.seatIds ensures db.seats[id].showId != s {
          assert db.seats[id].showId == b.showId;
        }
        assert BookedSeatsOfShow(after.seats, s) == BookedSeatsOfShow(db.seats, s);
      }
    }
    forall j | IsConfirmed(after, j) ensures HoldsSeats(after, after.bookings[j]) {
      assert j != i && IsConfirmed(db, j);
      assert db.bookings[j].seatIds !! b.seatIds;
    }
    forall j, k | IsConfirmed(after, j) && IsConfirmed(after, k) && j != k
      ensures after.bookings[j].seatIds !! after.bookings[k].seatIds
    {
      assert IsConfirmed(db, j) && IsConfirmed(db, k);
    }
    CancelKeepsCountersNonNegative(db, i);
    CancelKeepsCaps(db, i);
  }

  /** Booking and then cancelling that booking gives every seat and every
      show counter back exactly as they were; only the ledger (which keeps
      the cancelled booking) and the promo use count remember it. */
  lemma BookThenCancelRestores(db: Db, userId: int, showId: int, seatIds: seq<int>,
                               promoCode: Option<string>, now: int, uuid: string, b: BookingRow)
    requires |uuid| >= 8
    requires PlanBooking(db, userId, showId, seatIds, promoCode, now, uuid) == Success(b)
    ensures var booked := ApplyBooking(db, b);
      && PlanCancel(booked, |db.bookings| + 1, userId, false) == Success(|db.bookings|)
      && var after := ApplyCancel(booked, |db.bookings|);
      && after.seats == db.seats
      && after.shows == db.shows
      && after.promoCodes == booked.promoCodes
      && after.bookings == db.bookings + [b.(status := Cancelled)]
  {
    var booked := ApplyBooking(db, b);
    BookingEffects(db, userId, showId, seatIds, promoCode, now, uuid, b);
    var after := ApplyCancel(booked, |db.bookings|);
    assert booked.bookings[|db.bookings|] == b;
    forall id | id in db.seats ensures after.seats[id] == db.seats[id] {
      if id in b.seatIds {
        assert !db.seats[id].isBooked;
      }
    }
    assert after.seats == db.seats;
    assert after.shows == db.shows;
  }

  /** Cancelling is not idempotent: a second cancel by the same caller is
      rejected as already cancelled. */
  lemma CancelTwiceFails(db: Db, bookingId: int, userId: int, isAdmin: bool)
    requires WellFormed(db)
    requires PlanCancel(db, bookingId, userId, isAdmin).Success?
    ensures PlanCancel(ApplyCancel(db, bookingId - 1), bookingId, userId, isAdmin)
            == Failure(BusinessRule(AlreadyCancelled))
  {
  }

  /** Cancelling a booking frees exactly its seats, gives its seat count
      back to its show, marks it CANCELLED and leaves promo use counts
      alone. */
  lemma CancelEffects(db: Db, i: nat)
    requires WellFormed(db) && i < |db.bookings|
    ensures var b := db.bookings[i];
      var after := ApplyCancel(db, i);
      && after.users == db.users
      && after.seats.Keys == db.seats.Keys
      && (forall id | id in db.seats ::
            after.seats[id].isBooked == (id !in b.seatIds && db.seats[id].isBooked)
            && after.seats[id].showId == db.seats[id].showId)
      && after.shows.Keys == db.shows.Keys
      && after.shows[b.showId]
         == db.shows[b.showId].(availableSeats := db.shows[b.showId].availableSeats + b.totalSeats)
      && (forall s | s in db.shows && s != b.showId :: after.shows[s] == db.shows[s])
      && after.promoCodes == db.promoCodes
      && |after.bookings| == |db.bookings|
      && after.bookings[i] == b.(status := Cancelled)
      && (forall j | 0 <= j < |db.bookings| && j != i :: after.bookings[j] == db.bookings[j])
  {
  }

  /** Bookings keep their ids, shows, seats and promo codes well defined,
      and booking references stay unique. */
  lemma BookingPreservesWellFormed(db: Db, userId: int, showId: int, seatIds: seq<int>,
                                   promoCode: Option<string>, now: int, uuid: string, b: BookingRow)
    requires |uuid| >= 8
    requires PlanBooking(db, userId, showId, seatIds, promoCode, now, uuid) == Success(b)
    requires WellFormed(db)
    ensures WellFormed(ApplyBooking(db, b))
  {
    var after := ApplyBooking(db, b);
    BookingEffects(db, userId, showId, seatIds, promoCode, now, uuid, b);
    forall i, j | 0 <= i < j < |after.bookings|
      ensures after.bookings[i].reference != after.bookings[j].reference
    {
      if j == |db.bookings| {
        assert db.bookings[i] in db.bookings;
      }
    }
  }

  /** Both invariants of the store survive a cancel. */
  lemma CancelPreservesInvariants(db: Db, i: nat)
    requires WellFormed(db) && i < |db.bookings| && db.bookings[i].status == Confirmed
    ensures WellFormed(ApplyCancel(db, i))
    ensures Consistent(db) ==> Consistent(ApplyCancel(db, i))
  {
    CancelPreservesWellFormed(db, i);
    if Consistent(db) {
      CancelPreservesConsistency(db, i);
    }
  }

  lemma CancelPreservesWellFormed(db: Db, i: nat)
    requires WellFormed(db) && i < |db.bookings|
    ensures WellFormed(ApplyCancel(db, i))
  {
    var after := ApplyCancel(db, i);
    forall j, k | 0 <= j < k < |after.bookings|
      ensures after.bookings[j].reference != after.bookings[k].reference
    {
      assert after.bookings[j].reference == db.bookings[j].reference;
      assert after.bookings[k].reference == db.bookings[k].reference;
    }
  }

  /** When a show has one seat row per unit of capacity, counting its free
      seat rows gives the show's own counter. */
  lemma CountAvailableSeatsMatchesCounter(db: Db, showId: int)
    requires Consistent(db) && showId in db.shows
    requires |SeatsOfShow(db.seats, showId)| == db.shows[showId].totalSeats
    ensures CountAvailableSeats(db.seats, showId) == db.shows[showId].availableSeats
  {

  }
}
