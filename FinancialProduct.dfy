/** The FinancialProduct aggregate: a product's rate, fee, balance range, feature map and an
    active flag that gates eligibility. */
module Products {
  import opened Wrappers
  import opened Errors
  import opened ValueObjects
  import opened Entities
  import opened Enums

  datatype ProductEvent =
    | ProductCreated(ProductId: Guid, ProductCode: string, ProductName: string, Type: ProductType)
    | ProductInterestRateChanged(ProductId: Guid, ProductCode: string, OldRate: real, NewRate: real)
    | ProductFeeChanged(ProductId: Guid, ProductCode: string, OldFee: Money, NewFee: Money)
    | ProductDeactivated(ProductId: Guid, ProductCode: string)
    | ProductActivated(ProductId: Guid, ProductCode: string)

  class FinancialProduct {
    const entity: Entity<ProductEvent>
    const TenantId: string
    const ProductCode: string
    const ProductName: string
    const ProductType: ProductType
    const Description: string
    var InterestRate: real
    const MinimumBalance: real
    const MaximumBalance: real
    var MonthlyFee: Money
    const TermMonths: int
    var IsActive: bool
    var Features: map<string, string>

    /** The rate is never negative: creation is given a validated rate and UpdateInterestRate
        refuses a negative one. */
    predicate Valid()
      reads this
    {
      InterestRate >= 0.0
    }

    /** IsEligible(balance): the product is active and the balance lies within its range. */
    predicate IsEligible(balance: real): (r: bool)
      reads this
      ensures r <==> IsActive && MinimumBalance <= balance <= MaximumBalance
    {
      IsActive && MinimumBalance <= balance && balance <= MaximumBalance
    }

    /** FinancialProduct.Create: active, holding the arguments, with one ProductCreated event. */
    constructor Create(tenantId: string, productCode: string, productName: string, productType: ProductType,
                       description: string, interestRate: real, minimumBalance: real, maximumBalance: real,
                       monthlyFee: Money, termMonths: int, features: map<string, string>, createdBy: string,
                       id: Guid, now: Instant)
      requires interestRate >= 0.0
      ensures Valid() && fresh(entity)
      ensures TenantId == tenantId && ProductCode == productCode && ProductName == productName
      ensures ProductType == productType && Description == description
      ensures InterestRate == interestRate && MinimumBalance == minimumBalance && MaximumBalance == maximumBalance
      ensures MonthlyFee == monthlyFee && TermMonths == termMonths && Features == features
      ensures IsActive
      ensures entity.Id == id && entity.CreatedAt == now && entity.CreatedBy == createdBy
      ensures entity.UpdatedAt == None && !entity.IsDeleted
      ensures entity.DomainEvents == [ProductCreated(id, productCode, productName, productType)]
    {
      var e := new Entity<ProductEvent>(id, now, createdBy);
      entity := e;
      TenantId, ProductCode, ProductName := tenantId, productCode, productName;
      ProductType, Description := productType, description;
      InterestRate, MinimumBalance, MaximumBalance := interestRate, minimumBalance, maximumBalance;
      MonthlyFee, TermMonths, Features := monthlyFee, termMonths, features;
      IsActive := true;
      new;
      e.AddDomainEvent(ProductCreated(id, productCode, productName, productType));
    }

    /** Refuses a negative rate with nothing changed; otherwise sets the rate and records the old
        and the new one. */
    method UpdateInterestRate(newRate: real, updatedBy: string, now: Instant) returns (r: Outcome<Error>)
      requires Valid()
      modifies this`InterestRate, entity`UpdatedAt, entity`UpdatedBy, entity`DomainEvents
      ensures Valid()
      ensures r.Pass? <==> newRate >= 0.0
      ensures r.Fail? ==> r == Fail(InvalidArgument) && unchanged(this, entity)
      ensures r.Pass? ==> && InterestRate == newRate && entity.StampedBy(updatedBy, now)
                          && entity.DomainEvents == old(entity.DomainEvents) +
                               [ProductInterestRateChanged(entity.Id, ProductCode, old(InterestRate), newRate)]
    {
      if newRate < 0.0 {
        return Fail(InvalidArgument);
      }
      var oldRate := InterestRate;
      InterestRate := newRate;
      entity.UpdateTimestamp(updatedBy, now);
      entity.AddDomainEvent(ProductInterestRateChanged(entity.Id, ProductCode, oldRate, newRate));
      return Pass;
    }

    /** Replaces the monthly fee and records the previous and the new fee. */
    method UpdateFees(newFee: Money, updatedBy: string, now: Instant)
      requires Valid()
      modifies this`MonthlyFee, entity`UpdatedAt, entity`UpdatedBy, entity`DomainEvents
      ensures Valid()
      ensures MonthlyFee == newFee && entity.StampedBy(updatedBy, now)
      ensures entity.DomainEvents == old(entity.DomainEvents) + [ProductFeeChanged(entity.Id, ProductCode, old(MonthlyFee), newFee)]
    {
      var oldFee := MonthlyFee;
      MonthlyFee := newFee;
      entity.UpdateTimestamp(updatedBy, now);
      entity.AddDomainEvent(ProductFeeChanged(entity.Id, ProductCode, oldFee, newFee));
    }

    /** Clears the active flag, after which no balance is eligible. */
    method Deactivate(deactivatedBy: string, now: Instant)
      requires Valid()
      modifies this`IsActive, entity`UpdatedAt, entity`UpdatedBy, entity`DomainEvents
      ensures Valid()
      ensures !IsActive && entity.StampedBy(deactivatedBy, now)
      ensures forall balance: real :: !IsEligible(balance)
      ensures entity.DomainEvents == old(entity.DomainEvents) + [ProductDeactivated(entity.Id, ProductCode)]
    {
      IsActive := false;
      entity.UpdateTimestamp(deactivatedBy, now);
      entity.AddDomainEvent(ProductDeactivated(entity.Id, ProductCode));
    }

    /** Sets the active flag, after which exactly the balances within the range are eligible. */
    method Activate(activatedBy: string, now: Instant)
      requires Valid()
      modifies this`IsActive, entity`UpdatedAt, entity`UpdatedBy, entity`DomainEvents
      ensures Valid()
      ensures IsActive && entity.StampedBy(activatedBy, now)
      ensures forall balance: real :: IsEligible(balance) <==> MinimumBalance <= balance <= MaximumBalance
      ensures entity.DomainEvents == old(entity.DomainEvents) + [ProductActivated(entity.Id, ProductCode)]
    {
      IsActive := true;
      entity.UpdateTimestamp(activatedBy, now);
      entity.AddDomainEvent(ProductActivated(entity.Id, ProductCode));
    }

    /** Maps the key to the value, replacing any earlier value and keeping every other key;
        stamps the actor but raises no event. */
    method AddFeature(key: string, value: string, updatedBy: string, now: Instant)
      requires Valid()
      modifies this`Features, entity`UpdatedAt, entity`UpdatedBy
      ensures Valid()
      ensures key in Features && Features[key] == value
      ensures Features.Keys == old(Features.Keys) + {key}
      ensures forall k :: k in old(Features) && k != key ==> k in Features && Features[k] == old(Features)[k]
      ensures entity.StampedBy(updatedBy, now)
    {
      Features := Features[key := value];
      entity.UpdateTimestamp(updatedBy, now);
    }
  }

  /** Eligibility is an interval: a balance between two eligible balances is eligible too, and
      an eligible balance lies within the product's range. */
  lemma EligibleBalancesFormAnInterval(product: FinancialProduct, low: real, balance: real, high: real)
    requires product.IsEligible(low) && product.IsEligible(high) && low <= balance <= high
    ensures product.IsEligible(balance)
    ensures product.MinimumBalance <= low && high <= product.MaximumBalance
  {
  }
}
