/** Shared value types of the booking core: optional values, results,
    the two enumerations stored on entities, and the error taxonomy that
    the services raise as exceptions. */
module Types {

  datatype Option<+T> = None | Some(value: T)

  /** The outcome of an operation that either succeeds with a value or
      raises one of the service's exceptions. */
  datatype Result<+T, +E> = Success(value: T) | Failure(error: E)

  /** Lifecycle of a booking: created CONFIRMED, moved once to CANCELLED. */
  datatype BookingStatus = Confirmed | Cancelled

  /** The two kinds of promotion the service knows how to price. */
  datatype DiscountType = FlatDiscount | FreeSeat

  /** Which lookup a ResourceNotFoundException is about. */
  datatype Resource = UserResource | ShowResource | BookingResource

  /** The distinct messages of BusinessException. */
  datatype BusinessReason =
    | ShowNotActive
    | ShowInPast
    | NoSeatsSelected
    | SeatOfOtherShow
    | FreeSeatNeedsTwoSeats
    | AlreadyCancelled

  /** The distinct messages of InvalidPromoCodeException. */
  datatype PromoReason = NotFoundOrInactive | Expired | UsageLimitReached | NotEligible

  /** One constructor per exception type the core raises. DuplicateReference
      stands for the unique-constraint violation the database raises when a
      generated booking reference is already taken. */
  datatype Error =
    | ResourceNotFound(resource: Resource)
    | BusinessRule(reason: BusinessReason)
    | InsufficientSeats(available: int, requested: int)
    | SeatAlreadyBooked
    | InvalidPromoCode(promoReason: PromoReason)
    | Unauthorized
    | DuplicateReference
}
