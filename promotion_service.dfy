/** Loyalty eligibility for promotions, a read-only rule over the booking
    ledger. Money is in cents. */
module PromotionService {
  import opened Types
  import opened Bookings
  import opened BookingRepository

  /** More than this many confirmed bookings makes a user eligible. */
  const MinBookingsForPromo: int := 5
  /** Spending more than this (1500.00) makes a user eligible. */
  const MinSpendingForPromo: int := 150000

  /** isUserEligibleForPromo: more than five confirmed bookings, or more than
      1500 spent on confirmed bookings. Either way an eligible user has made
      at least one confirmed booking. */
  predicate IsUserEligibleForPromo(ledger: seq<BookingRow>, userId: int)
    ensures IsUserEligibleForPromo(ledger, userId) ==> CountConfirmedBookingsByUser(ledger, userId) >= 1
  {
    CountConfirmedBookingsByUser(ledger, userId) > MinBookingsForPromo
    || GetTotalSpendingByUser(ledger, userId) > MinSpendingForPromo
  }

  datatype PromotionEligibility = PromotionEligibility(
    eligible: bool,
    totalBookings: int,
    totalSpending: int)

  /** getPromotionEligibility: the raw aggregates together with the flag
      they give. */
  function GetPromotionEligibility(ledger: seq<BookingRow>, userId: int): (r: PromotionEligibility)
    ensures r.eligible == IsUserEligibleForPromo(ledger, userId)
    ensures r.totalBookings == CountConfirmedBookingsByUser(ledger, userId)
    ensures r.totalSpending == GetTotalSpendingByUser(ledger, userId)
  {
    var bookingCount := CountConfirmedBookingsByUser(ledger, userId);
    var totalSpending := GetTotalSpendingByUser(ledger, userId);
    PromotionEligibility(bookingCount > MinBookingsForPromo || totalSpending > MinSpendingForPromo,
                         bookingCount, totalSpending)
  }

  /** Both thresholds are strict, and either one alone is enough. */
  lemma EligibilityThresholds(ledger: seq<BookingRow>, userId: int)
    ensures CountConfirmedBookingsByUser(ledger, userId) >= 6 ==> IsUserEligibleForPromo(ledger, userId)
    ensures GetTotalSpendingByUser(ledger, userId) >= 150001 ==> IsUserEligibleForPromo(ledger, userId)
    ensures CountConfirmedBookingsByUser(ledger, userId) <= 5 && GetTotalSpendingByUser(ledger, userId) <= 150000
            ==> !IsUserEligibleForPromo(ledger, userId)
  {
  }

  /** A user whose bookings are all cancelled is not eligible, whatever they
      once spent. */
  lemma {:induction false} NoConfirmedBookingsNotEligible(ledger: seq<BookingRow>, userId: int)
    requires forall i :: 0 <= i < |ledger| && ledger[i].userId == userId ==> ledger[i].status == Cancelled
    ensures !IsUserEligibleForPromo(ledger, userId)
  {
    assert ConfirmedPositions(ledger, userId) == {};
  }
}
