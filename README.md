# Seat reservation core of the movie ticket booking service

This project is a Dafny model of the part of the movie ticket booking service that sells seats:

- `BookingService.createBooking` books a list of seats for one show, optionally with a promo code.
- `BookingService.cancelBooking` gives the seats back.
- `PromotionService` decides whether a user may use promotions.
- `BookingRepository` and `SeatRepository` are the queries the above rely on.
- `Show`, `Seat`, `PromoCode` and `Booking` are the entities they read and update.

The model has two layers.

- **Tables as values.** `BookingRules.Db` holds the users, and the show, seat, promo-code and booking tables as maps and a ledger (a sequence, since bookings are never deleted). Booking ids are handed out from 1 upwards without gaps, so booking id k is the k-th entry.
  - The repository queries and the promotion rule are pure functions over these tables.
  - `PlanBooking` and `PlanCancel` compute which exception a call raises, or what it is about to write.
  - `ApplyBooking` and `ApplyCancel` are the writes of a successful call, composed from the single writes the source makes: mark seats, move the show's counter, save the booking, count the promo use, set a status.
  - Every property of the two operations is proved at this level (module `BookingProperties`).
- **Objects updated in place.** The entities are classes. Their fields that the core changes are `var` and have setters; the rest are `const`. A booking's seat set is `const` too: the service fills it in place (`addAll`) before the booking is first saved, so the model passes the seats to the constructor instead. `BookingServices.BookingService` holds the entity objects and the booking ledger.
  - Its `CreateBooking` and `CancelBooking` run the checks on the current tables, then update the objects one at a time, as the source does.
  - Each is proved to leave the tables exactly as `ApplyBooking` / `ApplyCancel` of the plan says, or unchanged when the plan is an exception.
  - Each is proved to preserve the store invariants: every show's counter equals its capacity less its booked seats and is never negative, no seat is held by two confirmed bookings, no promo code is used more often than its cap allows, and booking references are unique.

Representation choices:

- Money (BigDecimal, scale 2) is an integer number of cents. The eligibility threshold of 1500 is `150000`.
- Times are integers, and the clock reading `now` is a parameter of each call.
- The random UUID behind a booking reference is a parameter, so `GenerateBookingReference` is a function of it.
- The database's unique constraint on references becomes the `DuplicateReference` error. When it is raised, nothing has been written (the transaction rolls back).
- Exceptions are values of `Types.Error`, one constructor per exception class. The messages are replaced by reason tags, e.g. `BusinessRule(ShowInPast)`.
- `DiscountType` has the two discount types that `calculateDiscount` prices, `FREE_SEAT` and `FLAT_DISCOUNT`, so its `default` branch cannot be reached.

Pricing:

- A FLAT_DISCOUNT is not capped: it is the promo's value whatever the total, so `finalAmount` can be negative (`BookingProperties.FlatDiscountNotCapped`).
- For FREE_SEAT with a non-negative seat price, `0 <= discount <= total` holds (`BookingProperties.FreeSeatPricing`).

## Model

| member | source | states |
|---|---|---|
| Shows.Show.constructor | src/main/java/com/sk/movie/entities/Show.java:19-50 | A new show keeps its time, capacity and price. It is active unless told otherwise. Its available-seat count is the capacity when none is supplied, and the supplied value otherwise. |
| Shows.Show.SetAvailableSeats | src/main/java/com/sk/movie/entities/Show.java:74 | Sets the available-seat counter and changes nothing else of the show. |
| Seats.Seat.constructor | src/main/java/com/sk/movie/entities/Seat.java:12-23 | A new seat belongs to one given show, has its row and number, and is not booked. |
| Seats.Seat.SetIsBooked | src/main/java/com/sk/movie/entities/Seat.java:42 | Sets the booked flag and changes nothing else of the seat. |
| PromoCodes.PromoCode.constructor | src/main/java/com/sk/movie/entities/PromoCode.java:15-39 | A new promo code has its type, value and validity window. It has been used 0 times, is active unless told otherwise, and has no use cap unless one is given. |
| PromoCodes.PromoCode.SetCurrentUses | src/main/java/com/sk/movie/entities/PromoCode.java:74 | Sets the use counter and changes nothing else of the code. |
| Bookings.Booking.constructor | src/main/java/com/sk/movie/entities/Booking.java:18-62 | A new booking is CONFIRMED, has zero discount and no promo code unless given, and holds the given set of seats (a set, so no seat twice). Its booking time is fixed once, when it is created. |
| Bookings.Booking.SetBookingStatus | src/main/java/com/sk/movie/entities/Booking.java:93 | Sets the status and changes nothing else of the booking. |
| BookingRepository.CountConfirmedBookingsByUser | src/main/java/com/sk/movie/repositories/BookingRepository.java:18-19 | The count is the number of ledger positions holding a CONFIRMED booking of the user, and is at most the ledger's length. |
| BookingRepository.GetTotalSpendingByUser | src/main/java/com/sk/movie/repositories/BookingRepository.java:21-23 | The total is 0 (not null) when the user has no confirmed booking. It is non-negative when all their confirmed final amounts are. |
| BookingRepository.AppendBooking | src/main/java/com/sk/movie/repositories/BookingRepository.java:18-23 | A new booking raises the user's count by one and their spending by its final amount exactly when it is a confirmed booking of theirs. |
| BookingRepository.CancelBooking | src/main/java/com/sk/movie/repositories/BookingRepository.java:18-23 | Cancelling a confirmed booking removes it from its owner's count and spending, and leaves every other user's unchanged. Cancelled bookings count towards neither. |
| BookingRepository.FindByUserUserIdOrderByBookingTimeDesc | src/main/java/com/sk/movie/repositories/BookingRepository.java:14 | The result is newest first and holds exactly the user's bookings, each as many times as in the ledger. |
| BookingRepository.FindByShowShowIdAndBookingStatus | src/main/java/com/sk/movie/repositories/BookingRepository.java:16 | A booking is in the result if and only if it is in the ledger, of the show and in the status. |
| SeatRepository.FindAvailableSeatsWithLock | src/main/java/com/sk/movie/repositories/SeatRepository.java:16-18 | Returns exactly the known, unbooked seats whose id was requested, whatever their show. It never returns more seats than ids requested. |
| SeatRepository.FindAvailableExact | src/main/java/com/sk/movie/repositories/SeatRepository.java:16-18 | The query returns one seat per requested id if and only if the ids are pairwise different, all known and none booked. |
| SeatRepository.FindByShowShowIdAndIsBookedFalse | src/main/java/com/sk/movie/repositories/SeatRepository.java:14 | The result is the show's seats less its booked seats. |
| SeatRepository.CountAvailableSeats | src/main/java/com/sk/movie/repositories/SeatRepository.java:20-21 | The count is the number of the show's seats less the number of its booked seats, so it never exceeds the show's seats. |
| PromotionService.IsUserEligibleForPromo | src/main/java/com/sk/movie/services/PromotionService.java:24-30 | An eligible user has at least one confirmed booking, whichever threshold makes them eligible. |
| PromotionService.GetPromotionEligibility | src/main/java/com/sk/movie/services/PromotionService.java:35-42 | The flag equals isUserEligibleForPromo for the same ledger. The confirmed count and spending are returned unchanged. |
| PromotionService.EligibilityThresholds | src/main/java/com/sk/movie/services/PromotionService.java:24-29 | Both thresholds are strict, and either alone is enough: 6 or more bookings, or more than 1500.00 spent, makes a user eligible. At most 5 bookings and at most 1500.00 spent does not. |
| PromotionService.NoConfirmedBookingsNotEligible | src/main/java/com/sk/movie/services/PromotionService.java:24-29 | A user whose bookings are all cancelled is not eligible. |
| BookingRules.CalculateDiscount | src/main/java/com/sk/movie/services/BookingService.java:172-183 | FREE_SEAT discounts one seat's price, so n seats cost as n − 1. For a non-negative price and at least one seat, that discount is between 0 and the total. FLAT_DISCOUNT gives the promo's value. |
| BookingRules.ValidateAndApplyPromo | src/main/java/com/sk/movie/services/BookingService.java:137-168 | The rules are checked in this order: known and active, inside the inclusive validity window, under the cap (none when maxUses is absent), user eligible on the bookings so far, FREE_SEAT needs two seats. Each exception is raised exactly when every earlier rule holds and its own fails. Success returns the stored code. |
| BookingRules.GenerateBookingReference | src/main/java/com/sk/movie/services/BookingService.java:188-190 | The reference is 11 characters: "BKG", then the first eight characters of the UUID, upper-cased. It contains no lower-case letter. |
| BookingRules.PlanBooking | src/main/java/com/sk/movie/services/BookingService.java:44-113 | A planned booking passed every check. Its id is the next ledger position and its time is now. It is CONFIRMED and holds exactly the requested seats. Its total is price × seats, its final amount is total − discount, and its reference is fresh. With no promo (null or empty) the discount is 0 and no code is recorded; otherwise the code validated and its discount is calculateDiscount's. |
| BookingRules.FoundAreRequested | src/main/java/com/sk/movie/services/BookingService.java:72-83 | When the locked query returns one seat per requested id, those seats are exactly the requested ones. The show check over them then says that every requested seat belongs to the show. |
| BookingRules.MarkSeats | src/main/java/com/sk/movie/services/BookingService.java:116 | Sets the booked flag of exactly the given seats, and keeps every seat's show and every other seat's flag. |
| BookingRules.ApplyBooking | src/main/java/com/sk/movie/services/BookingService.java:115-130 | The writes of a successful booking keep the users, the sets of shows, seats and codes, and every seat's show. They append exactly the new booking to the ledger. |
| BookingRules.PlanCancel | src/main/java/com/sk/movie/services/BookingService.java:215-226 | The checks come in this order: booking missing, caller neither owner nor admin (checked before status), already cancelled. Each error is raised exactly when its condition first fails. Success names the booking's ledger position. |
| BookingRules.ApplyCancel | src/main/java/com/sk/movie/services/BookingService.java:228-238 | The writes of a cancel keep the users, the promo codes, the sets of shows and seats, every seat's show, and the ledger's length. |
| BookingProperties.CreateBookingErrorOrder | src/main/java/com/sk/movie/services/BookingService.java:46-106 | The errors come in this order: user, show, inactive, past, no seats, too few available (with both counts), some seat taken/unknown/repeated, seat of another show, promo error, duplicate reference. Each is raised if and only if every earlier check passes and its own fails. Success holds if and only if none fails. |
| BookingProperties.RequestForUnavailableSeatFails | src/main/java/com/sk/movie/services/BookingService.java:72-76 | A request naming a booked or unknown seat, or one seat twice, fails. |
| BookingProperties.NoDoubleBooking | src/main/java/com/sk/movie/services/BookingService.java:62-76 | After a successful booking, every later request naming one of its seats fails. |
| BookingProperties.ServeAll | src/test/java/com/sk/movie/MovieTicketBookingSystemApplicationTests.java:29-53 | Serving requests one at a time: each success appends exactly one booking and earlier bookings stay as they were, so the successes are at most the requests. |
| BookingProperties.AtMostOneRacerWins | src/test/java/com/sk/movie/MovieTicketBookingSystemApplicationTests.java:24-58 | Of any number of requests naming the same seat, served one at a time, at most one succeeds, and none does if the seat is already booked. |
| BookingProperties.BookingEffects | src/main/java/com/sk/movie/services/BookingService.java:115-130 | Success books exactly the requested seats (all free before) and keeps every seat's show. The show's row changes only in its counter, which drops by exactly the seat count. The applied promo code's row changes only in its use count, which rises by one. The booking is appended. Users, other shows and other codes are unchanged. |
| BookingProperties.BookingCountsTowardsEligibilityAfterwards | src/main/java/com/sk/movie/services/BookingService.java:123-156 | The user's confirmed count and spending are taken before the new booking is saved; afterwards they grow by one booking and its final amount. |
| BookingProperties.FreeSeatPricing | src/main/java/com/sk/movie/services/BookingService.java:162-176 | With FREE_SEAT, at least two seats are booked and the discount is exactly one seat's price. The customer pays for one seat fewer, and for a non-negative price the discount is between 0 and the total. |
| BookingProperties.FlatDiscountNotCapped | src/main/java/com/sk/movie/services/BookingService.java:96-99 | A booking the service accepts with a FLAT_DISCOUNT code worth more than its total gets the code's whole value as discount, so its final amount is negative. |
| BookingProperties.BookingPreservesConsistency | src/main/java/com/sk/movie/services/BookingService.java:115-121 | Suppose that before a booking every show's counter is its capacity less its booked seats, and non-negative, no seat is held by two confirmed bookings, and no promo code is over its cap. Then all of this still holds afterwards. |
| BookingProperties.BookingKeepsCaps | src/main/java/com/sk/movie/services/BookingService.java:150-153 | A code is applied only while under its cap and then counts one use, so no code goes over its cap. |
| BookingProperties.BookingKeepsCountersNonNegative | src/main/java/com/sk/movie/services/BookingService.java:66-70 | A booking takes no more seats than its show has available, so no counter goes negative. |
| BookingProperties.BookingKeepsCounters | src/main/java/com/sk/movie/services/BookingService.java:115-121 | Marking n free seats of a show booked and lowering its counter by n keeps every counter equal to capacity less booked seats. |
| BookingProperties.BookingKeepsSeatsHeld | src/main/java/com/sk/movie/services/BookingService.java:113-117 | The new booking holds its booked seats, and shares none with any earlier confirmed booking. |
| BookingProperties.HeldSeatsNotFree | src/main/java/com/sk/movie/services/BookingService.java:73-76 | A confirmed booking's seats are disjoint from any set of free seats. |
| BookingProperties.CancelPreservesConsistency | src/main/java/com/sk/movie/services/BookingService.java:229-236 | Cancelling a confirmed booking keeps every counter equal to capacity less booked seats, and non-negative. It keeps every seat held by at most one confirmed booking and every promo code within its cap. |
| BookingProperties.CancelKeepsCaps | src/main/java/com/sk/movie/services/BookingService.java:228-238 | A cancel leaves promo use counts as they are, so caps stay respected. |
| BookingProperties.CancelKeepsCountersNonNegative | src/main/java/com/sk/movie/services/BookingService.java:234-236 | Cancelling gives back the seats a confirmed booking holds, a non-negative number, so no counter goes negative. |
| BookingProperties.CancelPreservesInvariants | src/main/java/com/sk/movie/services/BookingService.java:228-238 | A cancel keeps the store well formed, and consistent when it was consistent. |
| BookingProperties.BookThenCancelRestores | src/main/java/com/sk/movie/services/BookingService.java:229-236 | The owner may cancel a booking just made. Cancelling it restores every seat flag and every show counter exactly. The ledger keeps the booking as CANCELLED, and the promo use stays counted. |
| BookingProperties.CancelTwiceFails | src/main/java/com/sk/movie/services/BookingService.java:224-226 | A second cancel by the same caller fails as already cancelled; cancelling is not idempotent. |
| BookingProperties.CancelEffects | src/main/java/com/sk/movie/services/BookingService.java:228-238 | Cancel frees exactly the booking's seats and keeps every seat's show. The show's row changes only in its counter, which rises by the booking's seat count. Users, other shows and all promo codes are unchanged. The booking's row changes only in its status, to CANCELLED, and other bookings are unchanged. |
| BookingProperties.BookingPreservesWellFormed | src/main/java/com/sk/movie/services/BookingService.java:103-124 | After a booking, ids still match ledger positions, every booking's show, seats and promo code exist, and references stay unique. |
| BookingProperties.CancelPreservesWellFormed | src/main/java/com/sk/movie/services/BookingService.java:228-238 | Cancelling keeps ids, references and links to shows, seats and promo codes as they were. |
| BookingProperties.CountAvailableSeatsMatchesCounter | src/main/java/com/sk/movie/repositories/SeatRepository.java:20-21 | For a consistent store and a show with one seat row per unit of capacity, countAvailableSeats equals the show's counter. |
| BookingServices.BookingService.SetSeatsBooked | src/main/java/com/sk/movie/services/BookingService.java:116 | Sets the flag of each chosen seat object in a loop. The seat table becomes MarkSeats of the old one, and nothing else changes. |
| BookingServices.BookingService.AddAvailableSeats | src/main/java/com/sk/movie/services/BookingService.java:120 | Moves one show's counter by delta and nothing else. |
| BookingServices.BookingService.CountPromoUse | src/main/java/com/sk/movie/services/BookingService.java:128 | Adds one to one promo code's uses and nothing else. |
| BookingServices.BookingService.SaveBooking | src/main/java/com/sk/movie/services/BookingService.java:124 | Appends the booking to the ledger, keeping the object links valid, and nothing else. |
| BookingServices.BookingService.SetStatus | src/main/java/com/sk/movie/services/BookingService.java:229 | Sets one booking's status and nothing else. |
| BookingServices.BookingService.TakeSeats | src/main/java/com/sk/movie/services/BookingService.java:115-121 | Marks the locked seats booked, then lowers the show's counter by the requested count. |
| BookingServices.BookingService.Persist | src/main/java/com/sk/movie/services/BookingService.java:115-130 | The four writes of a successful booking, in the source's order, leave the tables as ApplyBooking says. |
| BookingServices.BookingService.Record | src/main/java/com/sk/movie/services/BookingService.java:123-130 | Saves the booking, then counts the promo use when a code was applied. |
| BookingServices.BookingService.CommitBooking | src/main/java/com/sk/movie/services/BookingService.java:103-130 | Builds the booking object with the locked seats and the applied promo, whose row is the planned one, and persists it. |
| BookingServices.BookingService.CreateBooking | src/main/java/com/sk/movie/services/BookingService.java:44-133 | A failed plan returns its exception and leaves every table unchanged. Otherwise it returns a new booking whose row is the plan's and the tables become ApplyBooking of the old ones. Well-formedness and consistency are preserved. |
| BookingServices.BookingService.ReleaseBooking | src/main/java/com/sk/movie/services/BookingService.java:228-238 | Sets the status to CANCELLED, frees the seats and raises the show's counter; the tables become ApplyCancel of the old ones. |
| BookingServices.BookingService.CheckCancel | src/main/java/com/sk/movie/services/BookingService.java:215-226 | Runs the checks cancelBooking makes before its first write, in its order, on the objects; its answer is exactly PlanCancel of the current tables. |
| BookingServices.BookingService.CancelBooking | src/main/java/com/sk/movie/services/BookingService.java:215-239 | A failed plan returns its exception and leaves every table unchanged. Otherwise the tables become ApplyCancel of the old ones. Well-formedness and consistency are preserved. |
| BookingServices.BookingService.GetUserBookings | src/main/java/com/sk/movie/services/BookingService.java:195-200 | Returns exactly the user's bookings, newest first. |

## Left out

- Transactions, isolation levels, pessimistic row locks and `@Version` optimistic locking are not modelled. Each call is one atomic step. The source's guarantee that only one racing request wins becomes `AtMostOneRacerWins` over requests served in sequence.
- createBooking reads the clock twice (show time check, promo window) and the persist hook stamps a third time. The model uses one reading, `now`, for all three.
- The random UUID is an input. A reference collision is the `DuplicateReference` error rather than a database exception at save time.
- `mapToBookingResponse`, the response and request DTOs, controllers, security and the exception-to-HTTP mapping are not modelled: they copy fields or route requests.
- `getAllBookings` is not modelled: it returns the whole ledger unfiltered.
- User, show and promo-code lookups (UserRepository, ShowRepository, PromoCodeRepository) are map lookups on the tables; `findByCodeAndIsActiveTrue` is `ActivePromoExists`.
- The `default` branch of calculateDiscount is not modelled: with the two discount types it cannot be reached.
- The entities' audit timestamps, descriptions and `version` fields are not modelled. A show's movie id and screen name are kept as plain fields, but the core never reads them.
- Booking ids are modelled as gap-free ledger positions. A database IDENTITY column may skip a value after a rolled-back insert, such as a save that fails on a duplicate reference. The model does not capture such gaps, and `PlanCancel`'s not-found test relies on there being none.
- Integer widths are not modelled (Integer seat counts, Long ids): all arithmetic is unbounded.
- BookingRepository.GetTotalSpendingByUser: its contract states the zero case and the sign, not the sum itself. The sum is stated through `AppendBooking` and `CancelBooking`, which say how each booking contributes.
