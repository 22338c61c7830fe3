/** The PromoCode entity: a time-boxed, optionally usage-capped discount. */
module PromoCodes {
  import opened Types

  /** What the booking core reads of a promo code row. Money is in cents. */
  datatype PromoRow = PromoRow(
    discountType: DiscountType,
    discountValue: int,
    validFrom: int,
    validUntil: int,
    maxUses: Option<int>,
    currentUses: int,
    isActive: bool)

  class PromoCode {
    const code: string
    const discountType: DiscountType
    const discountValue: int
    const validFrom: int
    const validUntil: int
    /** None means the code may be used any number of times. */
    const maxUses: Option<int>
    /** The only field of a promo code the booking core updates. */
    var currentUses: int
    const isActive: bool

    /** A new code has not been used yet; it is active and uncapped unless
        told otherwise. */
    constructor (code: string, discountType: DiscountType, discountValue: int,
                 validFrom: int, validUntil: int,
                 maxUses: Option<int> := None, isActive: bool := true)
      ensures this.code == code && this.discountType == discountType
      ensures this.discountValue == discountValue
      ensures this.validFrom == validFrom && this.validUntil == validUntil
      ensures this.maxUses == maxUses && this.isActive == isActive
      ensures currentUses == 0
    {
      this.code := code;
      this.discountType := discountType;
      this.discountValue := discountValue;
      this.validFrom := validFrom;
      this.validUntil := validUntil;
      this.maxUses := maxUses;
      this.isActive := isActive;
      currentUses := 0;
    }

    /** Sets the use counter and nothing else. */
    method SetCurrentUses(n: int)
      modifies this
      ensures currentUses == n
    {
      currentUses := n;
    }

    function Row(): PromoRow
      reads this
    {
      PromoRow(discountType, discountValue, validFrom, validUntil, maxUses, currentUses, isActive)
    }
  }
}
