/** The decisions of BookingService as pure functions over the state of the
    store: which exception a call raises, and what a successful call writes.
    Money is in cents, times are plain numbers, and `now` is the clock
    reading of the call. */
module BookingRules {
  import opened Types
  import opened Shows
  import opened Seats
  import opened PromoCodes
  import opened Bookings
  import opened SeatRepository
  import BookingRepository
  import PromotionService

  /** The tables the booking core reads and writes. Bookings are never
      deleted. The model hands out booking ids from 1 upwards without gaps,
      so booking id k is the k-th row of the ledger. */
  datatype Db = Db(
    users: set<int>,
    shows: map<int, ShowRow>,
    seats: map<int, SeatRow>,
    promoCodes: map<string, PromoRow>,
    bookings: seq<BookingRow>)

  // ---------------------------------------------------------------------
  // Pricing and promotion rules

  /** A promo code takes part only when the request carries a non-empty one. */
  predicate HasPromo(promoCode: Option<string>)
  {
    promoCode.Some? && promoCode.value != ""
  }

  /** calculateDiscount: one seat's price for FREE_SEAT, the promo's own
      value for FLAT_DISCOUNT. */
  function CalculateDiscount(promo: PromoRow, pricePerSeat: int, seatCount: int): (r: int)
    ensures promo.discountType == FreeSeat ==>
      pricePerSeat * seatCount - r == pricePerSeat * (seatCount - 1)
    ensures promo.discountType == FreeSeat && pricePerSeat >= 0 && seatCount >= 1 ==>
      0 <= r <= pricePerSeat * seatCount
    ensures promo.discountType == FlatDiscount ==> r == promo.discountValue
  {
    match promo.discountType
    case FreeSeat => pricePerSeat
    case FlatDiscount => promo.discountValue
  }

  /** findByCodeAndIsActiveTrue */
  predicate ActivePromoExists(db: Db, code: string)
  {
    code in db.promoCodes && db.promoCodes[code].isActive
  }

  /** The validity window includes both of its ends. */
  predicate WithinValidity(p: PromoRow, now: int)
  {
    p.validFrom <= now <= p.validUntil
  }

  /** A missing cap means the code may be used any number of times. */
  predicate UsesLeft(p: PromoRow)
  {
    p.maxUses.None? || p.currentUses < p.maxUses.value
  }

  /** validateAndApplyPromo: the code must be known and active, inside its
      window, under its cap, the user eligible on the bookings made so far,
      and a free seat needs at least two seats. The first rule broken decides
      the exception. */
  function ValidateAndApplyPromo(db: Db, code: string, userId: int, seatCount: int, now: int): (r: Result<PromoRow, Error>)
    ensures r.Success? <==>
      && ActivePromoExists(db, code)
      && WithinValidity(db.promoCodes[code], now)
      && UsesLeft(db.promoCodes[code])
      && PromotionService.IsUserEligibleForPromo(db.bookings, userId)
      && (db.promoCodes[code].discountType == FreeSeat ==> seatCount >= 2)
    ensures r.Success? ==> r.value == db.promoCodes[code]
    ensures r == Failure(InvalidPromoCode(NotFoundOrInactive)) <==> !ActivePromoExists(db, code)
    ensures r == Failure(InvalidPromoCode(Expired)) <==>
      ActivePromoExists(db, code) && !WithinValidity(db.promoCodes[code], now)
    ensures r == Failure(InvalidPromoCode(UsageLimitReached)) <==>
      ActivePromoExists(db, code) && WithinValidity(db.promoCodes[code], now) && !UsesLeft(db.promoCodes[code])
    ensures r == Failure(InvalidPromoCode(NotEligible)) <==>
      ActivePromoExists(db, code) && WithinValidity(db.promoCodes[code], now) && UsesLeft(db.promoCodes[code])
      && !PromotionService.IsUserEligibleForPromo(db.bookings, userId)
    ensures r.Failure? ==> r.error.InvalidPromoCode? || r.error == BusinessRule(FreeSeatNeedsTwoSeats)
  {
    if code !in db.promoCodes || !db.promoCodes[code].isActive then
      Failure(InvalidPromoCode(NotFoundOrInactive))
    else
      var promo := db.promoCodes[code];
      if now < promo.validFrom || now > promo.validUntil then
        Failure(InvalidPromoCode(Expired))
      else if promo.maxUses.Some? && promo.currentUses >= promo.maxUses.value then
        Failure(InvalidPromoCode(UsageLimitReached))
      else if !PromotionService.IsUserEligibleForPromo(db.bookings, userId) then
        Failure(InvalidPromoCode(NotEligible))
      else if promo.discountType == FreeSeat && seatCount < 2 then
        Failure(BusinessRule(FreeSeatNeedsTwoSeats))
      else
        Success(promo)
  }

  // ---------------------------------------------------------------------
  // Booking references

  function ToUpper(c: char): char
  {
    if 'a' <= c <= 'z' then (c as int - 32) as char else c
  }

  /** generateBookingReference: "BKG" and the first eight characters of a
      random UUID, upper-cased. The UUID is an input of the model. */
  function GenerateBookingReference(uuid: string): (r: string)
    requires |uuid| >= 8
    ensures |r| == 11 && r[..3] == "BKG"
    ensures forall i :: 0 <= i < |r| ==> !('a' <= r[i] <= 'z')
    ensures forall i :: 3 <= i < 11 ==> r[i] == uuid[i - 3] || r[i] == ToUpper(uuid[i - 3])
  {
    "BKG" + seq(8, i requires 0 <= i < 8 => ToUpper(uuid[i]))
  }

  predicate ReferenceTaken(db: Db, reference: string)
  {
    exists b | b in db.bookings :: b.reference == reference
  }

  // ---------------------------------------------------------------------
  // createBooking

  /** The show-level checks of createBooking all pass. */
  predicate ShowOpen(db: Db, userId: int, showId: int, now: int)
  {
    && userId in db.users
    && showId in db.shows
    && db.shows[showId].isActive
    && !(db.shows[showId].showTime < now)
  }

  /** Every requested seat exists, is free, and is asked for only once. */
  predicate SeatsFree(db: Db, seatIds: seq<int>)
  {
    && Distinct(seatIds)
    && forall i :: 0 <= i < |seatIds| ==> seatIds[i] in db.seats && !db.seats[seatIds[i]].isBooked
  }

  predicate SeatsBelongToShow(db: Db, seatIds: seq<int>, showId: int)
    requires forall i :: 0 <= i < |seatIds| ==> seatIds[i] in db.seats
  {
    forall i :: 0 <= i < |seatIds| ==> db.seats[seatIds[i]].showId == showId
  }

  /** Every check of createBooking before pricing passes. */
  predicate SeatsBookable(db: Db, userId: int, showId: int, seatIds: seq<int>, now: int)
  {
    && ShowOpen(db, userId, showId, now)
    && 0 < |seatIds| <= db.shows[showId].availableSeats
    && SeatsFree(db, seatIds)
    && SeatsBelongToShow(db, seatIds, showId)
  }

  /** The booking row that a successful call persists, or the unique-key
      violation when its reference is already taken. */
  function NewBooking(db: Db, userId: int, showId: int, seatIds: set<int>, requested: int,
                      totalAmount: int, discountAmount: int, promo: Option<string>,
                      now: int, uuid: string): (r: Result<BookingRow, Error>)
    requires |uuid| >= 8
  {
    var reference := GenerateBookingReference(uuid);
    if ReferenceTaken(db, reference) then
      Failure(DuplicateReference)
    else
      Success(BookingRow(|db.bookings| + 1, userId, showId, reference, requested,
                         totalAmount, discountAmount, totalAmount - discountAmount,
                         promo, Confirmed, seatIds, now))
  }

  /** Pricing and the optional promo code, once the seats are settled. */
  function PriceBooking(db: Db, userId: int, showId: int, seatIds: set<int>, requested: int,
                        promoCode: Option<string>, now: int, uuid: string): (r: Result<BookingRow, Error>)
    requires showId in db.shows && |uuid| >= 8
  {
    var price := db.shows[showId].pricePerSeat;
    var totalAmount := price * requested;
    if !HasPromo(promoCode) then
      NewBooking(db, userId, showId, seatIds, requested, totalAmount, 0, None, now, uuid)
    else
      match ValidateAndApplyPromo(db, promoCode.value, userId, requested, now)
      case Failure(e) => Failure(e)
      case Success(promo) =>
        NewBooking(db, userId, showId, seatIds, requested, totalAmount,
                   CalculateDiscount(promo, price, requested), Some(promoCode.value), now, uuid)
  }

  /** createBooking, up to the first write: either the exception it raises
      or the booking it is about to persist. */
  function PlanBooking(db: Db, userId: int, showId: int, seatIds: seq<int>,
                       promoCode: Option<string>, now: int, uuid: string): (r: Result<BookingRow, Error>)
    requires |uuid| >= 8
    ensures r.Success? ==> SeatsBookable(db, userId, showId, seatIds, now)
    ensures r.Success? ==>
      var b := r.value;
      && b.bookingId == |db.bookings| + 1
      && b.userId == userId && b.showId == showId && b.bookingTime == now
      && b.status == Confirmed
      && b.seatIds == Elements(seatIds) && b.totalSeats == |seatIds| == |b.seatIds|
      && b.totalAmount == db.shows[showId].pricePerSeat * |seatIds|
      && b.finalAmount == b.totalAmount - b.discountAmount
      && b.reference == GenerateBookingReference(uuid) && !ReferenceTaken(db, b.reference)
      && (!HasPromo(promoCode) ==> b.promoCode == None && b.discountAmount == 0)
      && (HasPromo(promoCode) ==>
            && b.promoCode == promoCode
            && ValidateAndApplyPromo(db, promoCode.value, userId, |seatIds|, now).Success?
            && b.discountAmount == CalculateDiscount(db.promoCodes[promoCode.value], db.shows[showId].pricePerSeat, |seatIds|))
  {
    if userId !in db.users then
      Failure(ResourceNotFound(UserResource))
    else if showId !in db.shows then
      Failure(ResourceNotFound(ShowResource))
    else if !db.shows[showId].isActive then
      Failure(BusinessRule(ShowNotActive))
    else if db.shows[showId].showTime < now then
      Failure(BusinessRule(ShowInPast))
    else if |seatIds| == 0 then
      Failure(BusinessRule(NoSeatsSelected))
    else if |seatIds| > db.shows[showId].availableSeats then
      Failure(InsufficientSeats(db.shows[showId].availableSeats, |seatIds|))
    else
      var found := FindAvailableSeatsWithLock(db.seats, seatIds);
      if |found| != |seatIds| then
        Failure(SeatAlreadyBooked)
      else if !(forall id | id in found :: db.seats[id].showId == showId) then
        Failure(BusinessRule(SeatOfOtherShow))
      else
        FoundAreRequested(db, showId, seatIds);
        PriceBooking(db, userId, showId, found, |seatIds|, promoCode, now, uuid)
  }

  /** When the locked query returns one row per requested id, the rows are
      exactly the requested seats. */
  lemma FoundAreRequested(db: Db, showId: int, seatIds: seq<int>)
    requires |FindAvailableSeatsWithLock(db.seats, seatIds)| == |seatIds|
    ensures SeatsFree(db, seatIds)
    ensures FindAvailableSeatsWithLock(db.seats, seatIds) == Elements(seatIds)
    ensures |Elements(seatIds)| == |seatIds|
    ensures (forall id | id in FindAvailableSeatsWithLock(db.seats, seatIds) :: db.seats[id].showId == showId)
            <==> SeatsBelongToShow(db, seatIds, showId)
  {
    FindAvailableExact(db.seats, seatIds);
    ElementsCard(seatIds);
    var found := FindAvailableSeatsWithLock(db.seats, seatIds);
    forall id | id in Elements(seatIds) ensures id in found {
      var i :| 0 <= i < |seatIds| && seatIds[i] == id;
    }
    assert found == Elements(seatIds);
    if forall id | id in found :: db.seats[id].showId == showId {
      forall i | 0 <= i < |seatIds| ensures db.seats[seatIds[i]].showId == showId {
        assert seatIds[i] in found;
      }
    }
  }

  /** The seat table after setting isBooked on the given seats. */
  function MarkSeats(seats: map<int, SeatRow>, ids: set<int>, booked: bool): (r: map<int, SeatRow>)
    ensures r.Keys == seats.Keys
    ensures forall id | id in r ::
      r[id].showId == seats[id].showId && r[id].isBooked == (if id in ids then booked else seats[id].isBooked)
  {
    map id | id in seats :: if id in ids then seats[id].(isBooked := booked) else seats[id]
  }

  // The single writes the two transactions are made of.

  /** setIsBooked on each of the given seats. */
  function SetSeatsBooked(db: Db, ids: set<int>, booked: bool): Db
  {
    db.(seats := MarkSeats(db.seats, ids, booked))
  }

  /** setAvailableSeats(availableSeats + delta) on one show. */
  function AddAvailableSeats(db: Db, showId: int, delta: int): Db
    requires showId in db.shows
  {
    var show := db.shows[showId];
    db.(shows := db.shows[showId := show.(availableSeats := show.availableSeats + delta)])
  }

  /** setCurrentUses(currentUses + 1) on one promo code. */
  function CountPromoUse(db: Db, code: string): Db
    requires code in db.promoCodes
  {
    var promo := db.promoCodes[code];
    db.(promoCodes := db.promoCodes[code := promo.(currentUses := promo.currentUses + 1)])
  }

  /** Saving a new booking appends it to the ledger. */
  function SaveBooking(db: Db, b: BookingRow): Db
  {
    db.(bookings := db.bookings + [b])
  }

  /** setBookingStatus on the booking at ledger position i. */
  function SetStatus(db: Db, i: nat, status: BookingStatus): Db
    requires i < |db.bookings|
  {
    db.(bookings := db.bookings[i := db.bookings[i].(status := status)])
  }

  /** The writes of a successful createBooking, in the order it makes them:
      the seats become booked, the show's counter drops by the number of
      seats, the booking is appended, and the promo code's use count goes up
      by one when one was applied. */
  function ApplyBooking(db: Db, b: BookingRow): (r: Db)
    requires b.showId in db.shows
    requires b.promoCode.Some? ==> b.promoCode.value in db.promoCodes
    ensures r.users == db.users && r.bookings == db.bookings + [b]
    ensures r.shows.Keys == db.shows.Keys && r.seats.Keys == db.seats.Keys
    ensures r.promoCodes.Keys == db.promoCodes.Keys
    ensures forall id | id in r.seats :: r.seats[id].showId == db.seats[id].showId
  {
    var saved := SaveBooking(AddAvailableSeats(SetSeatsBooked(db, b.seatIds, true), b.showId, -b.totalSeats), b);
    match b.promoCode
    case None => saved
    case Some(code) => CountPromoUse(saved, code)
  }

  /** ApplyBooking unfolded into its single writes. It states nothing new;
      it is there so that the proof of BookingService.Persist sees the
      unfolding in the heap state where it needs it. */
  lemma ApplyBookingSteps(db: Db, b: BookingRow)
    requires b.showId in db.shows
    requires b.promoCode.Some? ==> b.promoCode.value in db.promoCodes
    ensures var saved := SaveBooking(AddAvailableSeats(SetSeatsBooked(db, b.seatIds, true), b.showId, -b.totalSeats), b);
      ApplyBooking(db, b) == if b.promoCode.Some? then CountPromoUse(saved, b.promoCode.value) else saved
  {
  }

  // ---------------------------------------------------------------------
  // cancelBooking

  /** cancelBooking, up to the first write: the exception it raises, or the
      ledger position of the booking it cancels. The owner check comes before
      the status check. */
  function PlanCancel(db: Db, bookingId: int, userId: int, isAdmin: bool): (r: Result<nat, Error>)
    ensures r == Failure(ResourceNotFound(BookingResource)) <==> !(1 <= bookingId <= |db.bookings|)
    ensures r == Failure(Unauthorized) <==>
      1 <= bookingId <= |db.bookings| && !isAdmin && db.bookings[bookingId - 1].userId != userId
    ensures r == Failure(BusinessRule(AlreadyCancelled)) <==>
      1 <= bookingId <= |db.bookings| && (isAdmin || db.bookings[bookingId - 1].userId == userId)
      && db.bookings[bookingId - 1].status == Cancelled
    ensures r.Success? <==>
      1 <= bookingId <= |db.bookings| && (isAdmin || db.bookings[bookingId - 1].userId == userId)
      && db.bookings[bookingId - 1].status == Confirmed
    ensures r.Success? ==> r.value == bookingId - 1
  {
    if !(1 <= bookingId <= |db.bookings|) then
      Failure(ResourceNotFound(BookingResource))
    else
      var b := db.bookings[bookingId - 1];
      if !isAdmin && b.userId != userId then
        Failure(Unauthorized)
      else if b.status == Cancelled then
        Failure(BusinessRule(AlreadyCancelled))
      else
        assert b.status == Confirmed;
        Success(bookingId - 1)
  }

  /** The writes of a successful cancelBooking, in the order it makes them:
      the booking becomes CANCELLED, its seats become free, and its show gets
      its seat count back. The promo code's use count is left alone. */
  function ApplyCancel(db: Db, i: nat): (r: Db)
    requires i < |db.bookings| && db.bookings[i].showId in db.shows
    ensures r.users == db.users && r.promoCodes == db.promoCodes
    ensures r.shows.Keys == db.shows.Keys && r.seats.Keys == db.seats.Keys
    ensures |r.bookings| == |db.bookings|
    ensures forall id | id in r.seats :: r.seats[id].showId == db.seats[id].showId
  {
    var b := db.bookings[i];
    AddAvailableSeats(SetSeatsBooked(SetStatus(db, i, Cancelled), b.seatIds, false), b.showId, b.totalSeats)
  }

  // ---------------------------------------------------------------------
  // Invariants of the store

  /** What the entity classes guarantee of the tables: ids match ledger
      positions, bookings point at existing shows, seats and promo codes,
      and references are unique. */
  ghost predicate WellFormed(db: Db)
  {
    && (forall i :: 0 <= i < |db.bookings| ==> db.bookings[i].bookingId == i + 1)
    && (forall i :: 0 <= i < |db.bookings| ==>
          && db.bookings[i].showId in db.shows
          && db.bookings[i].seatIds <= db.seats.Keys
          && (db.bookings[i].promoCode.Some? ==> db.bookings[i].promoCode.value in db.promoCodes))
    && (forall i, j :: 0 <= i < j < |db.bookings| ==> db.bookings[i].reference != db.bookings[j].reference)
  }

  /** Every show's counter equals its capacity less its booked seats. */
  ghost predicate CountersAgree(db: Db)
  {
    forall s | s in db.shows ::
      db.shows[s].availableSeats == db.shows[s].totalSeats - |BookedSeatsOfShow(db.seats, s)|
  }

  /** A confirmed booking holds booked seats of its own show, as many as
      it paid for. */
  ghost predicate HoldsSeats(db: Db, b: BookingRow)
  {
    && b.seatIds <= db.seats.Keys
    && |b.seatIds| == b.totalSeats
    && forall id | id in b.seatIds :: db.seats[id].isBooked && db.seats[id].showId == b.showId
  }

  ghost predicate IsConfirmed(db: Db, i: int)
  {
    0 <= i < |db.bookings| && db.bookings[i].status == Confirmed
  }

  /** Confirmed bookings hold their seats, and no seat is held by two of
      them: no seat is sold twice. */
  ghost predicate SeatsHeld(db: Db)
  {
    && (forall i | IsConfirmed(db, i) :: HoldsSeats(db, db.bookings[i]))
    && (forall i, j | IsConfirmed(db, i) && IsConfirmed(db, j) && i != j ::
          db.bookings[i].seatIds !! db.bookings[j].seatIds)
  }

  /** No show's available-seat counter is negative. */
  ghost predicate CountersNonNegative(db: Db)
  {
    forall s | s in db.shows :: db.shows[s].availableSeats >= 0
  }

  /** No promo code has been used more often than its cap allows. */
  ghost predicate CapsRespected(db: Db)
  {
    forall c | c in db.promoCodes && db.promoCodes[c].maxUses.Some? ::
      db.promoCodes[c].currentUses <= db.promoCodes[c].maxUses.value
  }

  ghost predicate Consistent(db: Db)
  {
    CountersAgree(db) && SeatsHeld(db) && CountersNonNegative(db) && CapsRespected(db)
  }
}
