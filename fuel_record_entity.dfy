/** The `FuelRecord` entity (backend/.../entity/FuelRecord.java) and its
    lifecycle hooks, which stamp the times and derive the price per gallon as
    amount / gallons rounded HALF_UP to three decimal places. Times are
    seconds on the server clock, passed in. */
module FuelRecordEntity {
  import opened Base
  import opened Decimal

  /** Amount and gallons are present and gallons is positive: the
      condition under which a price can be derived. */
  predicate CanDerivePrice(amount: Option<Dec>, gallons: Option<Dec>) {
    amount.Some? && gallons.Some? && IsPositive(gallons.value)
  }

  /** `amount.divide(gallons, 3, HALF_UP)` when it may be computed. */
  function DerivedPrice(amount: Option<Dec>, gallons: Option<Dec>): (r: Option<Dec>)
    ensures r.Some? <==> CanDerivePrice(amount, gallons)
    ensures r.Some? ==> r.value.scale == 3
    // within 0.0005 of the exact quotient
    ensures r.Some? ==>
              var (n, d) := QuotientFraction(amount.value, gallons.value, 3);
              d != 0 && Abs(2 * r.value.unscaled * d - 2 * n) <= Abs(d)
  {
    if CanDerivePrice(amount, gallons) then
      DivideWithinHalfUnit(amount.value, gallons.value, 3);
      Some(Divide(amount.value, gallons.value, 3))
    else None
  }

  class FuelRecord {
    var id: Option<int>
    var userId: int
    var stationName: Option<string>
    var amount: Option<Dec>
    var gallons: Option<Dec>
    var pricePerGallon: Option<Dec>
    var receiptImageUrl: Option<string>
    var extractedData: Option<string>
    var purchaseDate: Option<int>
    var location: Option<string>
    var createdAt: Option<int>
    var updatedAt: Option<int>

    /** The builder: everything but the owner may be left null. */
    constructor (userId: int, amount: Option<Dec>, gallons: Option<Dec>, pricePerGallon: Option<Dec>)
      ensures this.userId == userId && this.amount == amount && this.gallons == gallons
      ensures this.pricePerGallon == pricePerGallon
      ensures id.None? && createdAt.None? && updatedAt.None?
    {
      this.id := None;
      this.userId := userId;
      this.stationName := None;
      this.amount := amount;
      this.gallons := gallons;
      this.pricePerGallon := pricePerGallon;
      this.receiptImageUrl := None;
      this.extractedData := None;
      this.purchaseDate := None;
      this.location := None;
      this.createdAt := None;
      this.updatedAt := None;
    }

    /** `@PrePersist onCreate`: stamps both times and derives the price only
        when none was supplied. */
    method OnCreate(createdNow: int, updatedNow: int)
      modifies this`createdAt, this`updatedAt, this`pricePerGallon
      ensures createdAt == Some(createdNow) && updatedAt == Some(updatedNow)
      ensures old(pricePerGallon).Some? ==> pricePerGallon == old(pricePerGallon)
      ensures old(pricePerGallon).None? && CanDerivePrice(amount, gallons) ==>
                pricePerGallon == DerivedPrice(amount, gallons)
      ensures !CanDerivePrice(amount, gallons) ==> pricePerGallon == old(pricePerGallon)
    {
      createdAt := Some(createdNow);
      updatedAt := Some(updatedNow);
      if pricePerGallon.None? && amount.Some? && gallons.Some? && IsPositive(gallons.value) {
        pricePerGallon := Some(Divide(amount.value, gallons.value, 3));
      }
    }

    /** `@PreUpdate onUpdate`: refreshes `updatedAt` and re-derives the price
        whenever it can, replacing any stored value; `createdAt` stays. */
    method OnUpdate(now: int)
      modifies this`updatedAt, this`pricePerGallon
      ensures updatedAt == Some(now)
      ensures CanDerivePrice(amount, gallons) ==> pricePerGallon == DerivedPrice(amount, gallons)
      ensures !CanDerivePrice(amount, gallons) ==> pricePerGallon == old(pricePerGallon)
    {
      updatedAt := Some(now);
      if amount.Some? && gallons.Some? && IsPositive(gallons.value) {
        pricePerGallon := Some(Divide(amount.value, gallons.value, 3));
      }
    }
  }

  /** An amount in cents and gallons in thousandths whose quotient has at
      most three decimals get exactly that price: 450.00 over 10.000 gallons
      is 45.000. */
  lemma ExactPriceIsKept(amountCents: int, gallonsMilli: int, price: int)
    requires gallonsMilli > 0 && amountCents * 10000 == price * gallonsMilli
    ensures DerivedPrice(Some(Dec(amountCents, 2)), Some(Dec(gallonsMilli, 3)))
            == Some(Dec(price, 3))
  {
    assert Pow10(4) == 10000;
    RoundHalfUpExact(price, gallonsMilli);
  }
}
