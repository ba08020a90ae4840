/** The Account aggregate: a ZAR balance that moves only while the account is Active. */
module Accounts {
  import opened Wrappers
  import opened Errors
  import opened Numerals
  import opened ValueObjects
  import opened Entities
  import opened Enums

  datatype AccountEvent =
    | AccountCreated(AccountId: Guid, AccountNumber: string, CustomerId: string, TenantId: string)
    | AccountActivated(AccountId: Guid, AccountNumber: string)
    | AccountDeposited(AccountId: Guid, AccountNumber: string, Amount: Money)
    | AccountWithdrawn(AccountId: Guid, AccountNumber: string, Amount: Money)
    | AccountFrozen(AccountId: Guid, AccountNumber: string, Reason: string)
    | InterestApplied(AccountId: Guid, AccountNumber: string, Amount: Money)

  /** The bounds of Random.Next(10000000, 99999999): the lower one inclusive, the upper exclusive. */
  const DrawLow: int := 10000000
  const DrawHigh: int := 99999999

  /** "62" followed by the random draw. The result is ten decimal digits, and the draw can be
      read back from it, so distinct draws give distinct account numbers. */
  function GenerateAccountNumber(draw: int): (r: string)
    requires DrawLow <= draw < DrawHigh
    ensures |r| == 10 && r[..2] == "62" && AllDecimal(r)
    ensures ValueOf(r[2..], 10) == draw
  {
    var digits := DecimalString(draw);
    DecimalPowers();
    DecimalStringIsPadded(draw, 8);
    PadDigitsRoundTrip(draw, 8, 10);
    assert ("62" + digits)[2..] == digits;
    "62" + digits
  }

  /** InterestRate / 100 / 12: the monthly rate of an annual percentage. */
  function MonthlyRate(annualPercent: real): (r: real)
    ensures 1200.0 * r == annualPercent
    ensures r > 0.0 <==> annualPercent > 0.0
  {
    annualPercent / 100.0 / 12.0
  }

  class Account {
    const entity: Entity<AccountEvent>
    const AccountNumber: string
    const CustomerId: string
    const TenantId: string
    const ProductType: ProductType
    const InterestRate: real
    var Balance: Money
    var AvailableBalance: Money
    var Status: AccountStatus
    var LastInterestDate: Option<Instant>

    /** Every operation moves both balances together, so they are always equal, and they stay
        in the currency of Money.Zero(). */
    predicate Valid()
      reads this
    {
      Balance == AvailableBalance && Balance.currency == DefaultCurrency && Balance.Valid()
    }

    /** Account.Create: Pending, both balances zero, one AccountCreated event. */
    constructor Create(customerId: string, tenantId: string, productType: ProductType,
                       interestRate: real, createdBy: string,
                       id: Guid, now: Instant, numberDraw: int)
      requires DrawLow <= numberDraw < DrawHigh
      ensures Valid() && fresh(entity)
      ensures AccountNumber == GenerateAccountNumber(numberDraw)
      ensures CustomerId == customerId && TenantId == tenantId && ProductType == productType
      ensures InterestRate == interestRate && LastInterestDate == None
      ensures Status == AccountStatus.Pending && Balance == Money(0, DefaultCurrency)
      ensures entity.Id == id && entity.CreatedAt == now && entity.CreatedBy == createdBy
      ensures entity.UpdatedAt == None && !entity.IsDeleted
      ensures entity.DomainEvents == [AccountCreated(id, AccountNumber, customerId, tenantId)]
    {
      var e := new Entity<AccountEvent>(id, now, createdBy);
      entity := e;
      AccountNumber := GenerateAccountNumber(numberDraw);
      CustomerId, TenantId, ProductType := customerId, tenantId, productType;
      DefaultCurrencyIsValid();
      Balance := Money.Zero().value;
      AvailableBalance := Money.Zero().value;
      Status := AccountStatus.Pending;
      InterestRate := interestRate;
      LastInterestDate := None;
      new;
      e.AddDomainEvent(AccountCreated(id, AccountNumber, customerId, tenantId));
    }

    /** Only a Pending account can be activated; any other status is refused with nothing changed. */
    method Activate(activatedBy: string, now: Instant) returns (r: Outcome<Error>)
      requires Valid()
      modifies this`Status, entity`UpdatedAt, entity`UpdatedBy, entity`DomainEvents
      ensures Valid()
      ensures r.Pass? <==> old(Status) == AccountStatus.Pending
      ensures r.Fail? ==> r == Fail(IllegalStateTransition) && unchanged(this, entity)
      ensures r.Pass? ==> && Status == AccountStatus.Active && entity.StampedBy(activatedBy, now)
                          && entity.DomainEvents == old(entity.DomainEvents) + [AccountActivated(entity.Id, AccountNumber)]
    {
      if Status != AccountStatus.Pending {
        return Fail(IllegalStateTransition);
      }
      Status := AccountStatus.Active;
      entity.UpdateTimestamp(activatedBy, now);
      entity.AddDomainEvent(AccountActivated(entity.Id, AccountNumber));
      return Pass;
    }

    /** Adds the amount to both balances of an Active account; refuses any other status, then a
        foreign currency, with nothing changed. */
    method Deposit(amount: Money, performedBy: string, now: Instant) returns (r: Outcome<Error>)
      requires Valid()
      modifies this`Balance, this`AvailableBalance, entity`UpdatedAt, entity`UpdatedBy, entity`DomainEvents
      ensures Valid()
      ensures r.Pass? <==> old(Status) == AccountStatus.Active && amount.currency == old(Balance).currency
      ensures old(Status) != AccountStatus.Active ==> r == Fail(AccountNotActive)
      ensures old(Status) == AccountStatus.Active && amount.currency != old(Balance).currency ==> r == Fail(CurrencyMismatch)
      ensures r.Fail? ==> unchanged(this, entity)
      ensures r.Pass? ==> && Balance == Money(old(Balance).cents + amount.cents, DefaultCurrency)
                          && AvailableBalance == Money(old(AvailableBalance).cents + amount.cents, DefaultCurrency)
                          && entity.StampedBy(performedBy, now)
                          && entity.DomainEvents == old(entity.DomainEvents) + [AccountDeposited(entity.Id, AccountNumber, amount)]
    {
      if Status != AccountStatus.Active {
        return Fail(AccountNotActive);
      }
      var newBalance := Balance.Add(amount);
      if newBalance.Failure? {
        return Fail(newBalance.error);
      }
      var newAvailable := AvailableBalance.Add(amount);
      Balance := newBalance.value;
      AvailableBalance := newAvailable.value;
      entity.UpdateTimestamp(performedBy, now);
      entity.AddDomainEvent(AccountDeposited(entity.Id, AccountNumber, amount));
      return Pass;
    }

    /** Takes the amount from both balances of an Active account whose available balance covers
        it; refuses any other status, a foreign currency, or insufficient funds, with nothing changed. */
    method Withdraw(amount: Money, performedBy: string, now: Instant) returns (r: Outcome<Error>)
      requires Valid()
      modifies this`Balance, this`AvailableBalance, entity`UpdatedAt, entity`UpdatedBy, entity`DomainEvents
      ensures Valid()
      ensures r.Pass? <==> && old(Status) == AccountStatus.Active && amount.currency == old(Balance).currency
                           && amount.cents <= old(AvailableBalance).cents
      ensures old(Status) != AccountStatus.Active ==> r == Fail(AccountNotActive)
      ensures old(Status) == AccountStatus.Active && amount.currency != old(Balance).currency ==> r == Fail(CurrencyMismatch)
      ensures (&& old(Status) == AccountStatus.Active && amount.currency == old(Balance).currency
               && amount.cents > old(AvailableBalance).cents) ==> r == Fail(InsufficientFunds)
      ensures r.Fail? ==> unchanged(this, entity)
      ensures r.Pass? ==> && Balance == Money(old(Balance).cents - amount.cents, DefaultCurrency)
                          && AvailableBalance == Money(old(AvailableBalance).cents - amount.cents, DefaultCurrency)
                          && entity.StampedBy(performedBy, now)
                          && entity.DomainEvents == old(entity.DomainEvents) + [AccountWithdrawn(entity.Id, AccountNumber, amount)]
    {
      if Status != AccountStatus.Active {
        return Fail(AccountNotActive);
      }
      var short := AvailableBalance.LessThan(amount);
      if short.Failure? {
        return Fail(short.error);
      }
      if short.value {
        return Fail(InsufficientFunds);
      }
      var newBalance := Balance.Subtract(amount);
      var newAvailable := AvailableBalance.Subtract(amount);
      Balance := newBalance.value;
      AvailableBalance := newAvailable.value;
      entity.UpdateTimestamp(performedBy, now);
      entity.AddDomainEvent(AccountWithdrawn(entity.Id, AccountNumber, amount));
      return Pass;
    }

    /** Freezes the account from any status, even Closed or Frozen. */
    method Freeze(reason: string, performedBy: string, now: Instant)
      requires Valid()
      modifies this`Status, entity`UpdatedAt, entity`UpdatedBy, entity`DomainEvents
      ensures Valid()
      ensures Status == AccountStatus.Frozen && entity.StampedBy(performedBy, now)
      ensures entity.DomainEvents == old(entity.DomainEvents) + [AccountFrozen(entity.Id, AccountNumber, reason)]
    {
      Status := AccountStatus.Frozen;
      entity.UpdateTimestamp(performedBy, now);
      entity.AddDomainEvent(AccountFrozen(entity.Id, AccountNumber, reason));
    }

    /** With a positive rate, credits one month's interest, rounded to cents, to both balances,
        whatever the status; with a rate of zero or below, changes nothing. The clock is read
        twice, for LastInterestDate and again when stamping: `now` and `stampedAt`. */
    method ApplyInterest(performedBy: string, now: Instant, stampedAt: Instant)
      requires Valid()
      modifies this`Balance, this`AvailableBalance, this`LastInterestDate,
               entity`UpdatedAt, entity`UpdatedBy, entity`DomainEvents
      ensures Valid()
      ensures InterestRate <= 0.0 ==> unchanged(this, entity)
      ensures InterestRate > 0.0 ==>
                var interest := old(Balance).MultiplyBy(MonthlyRate(InterestRate));
                && interest.Success? && interest.value.currency == DefaultCurrency
                && Balance == Money(old(Balance).cents + interest.value.cents, DefaultCurrency)
                && LastInterestDate == Some(now) && entity.StampedBy(performedBy, stampedAt)
                && entity.DomainEvents == old(entity.DomainEvents) + [InterestApplied(entity.Id, AccountNumber, interest.value)]
    {
      if InterestRate <= 0.0 {
        return;
      }
      var interest := Balance.MultiplyBy(MonthlyRate(InterestRate)).value;
      Balance := Balance.Add(interest).value;
      AvailableBalance := AvailableBalance.Add(interest).value;
      LastInterestDate := Some(now);
      entity.UpdateTimestamp(performedBy, stampedAt);
      entity.AddDomainEvent(InterestApplied(entity.Id, AccountNumber, interest));
    }
  }

  /** A deposit followed by a withdrawal of the same amount, on an Active account, restores both balances. */
  method DepositThenWithdraw(account: Account, amount: Money, performedBy: string, now: Instant)
    requires account.Valid() && account.Status == AccountStatus.Active && amount.currency == DefaultCurrency
    modifies account, account.entity
    ensures account.Valid()
    ensures account.Balance == old(account.Balance) && account.AvailableBalance == old(account.AvailableBalance)
    ensures |account.entity.DomainEvents| == |old(account.entity.DomainEvents)| + 2
  {
    var d := account.Deposit(amount, performedBy, now);
    var w := account.Withdraw(amount, performedBy, now);
    assert w.Pass?;
  }

  /** Create, activate, deposit 100 ZAR; a withdrawal of 150 is refused and leaves 100; one of 40 leaves 60. */
  method Scenario(id: Guid, now: Instant) returns (account: Account, refused: Outcome<Error>, afterRefusal: Money)
    ensures refused == Fail(InsufficientFunds) && afterRefusal == Money(10000, DefaultCurrency)
    ensures account.Valid() && account.Status == AccountStatus.Active
    ensures account.Balance == Money(6000, DefaultCurrency)
  {
    DefaultCurrencyIsValid();
    account := new Account.Create("customer", "tenant", ProductType.CurrentAccount, 0.0, "teller", id, now, DrawLow);
    var r := account.Activate("teller", now);
    assert r.Pass?;
    assert Money.Create(100.0) == Success(Money(10000, DefaultCurrency));
    r := account.Deposit(Money.Create(100.0).value, "teller", now);
    assert r.Pass?;
    assert Money.Create(150.0) == Success(Money(15000, DefaultCurrency));
    refused := account.Withdraw(Money.Create(150.0).value, "teller", now);
    afterRefusal := account.Balance;
    assert Money.Create(40.0) == Success(Money(4000, DefaultCurrency));
    r := account.Withdraw(Money.Create(40.0).value, "teller", now);
    assert r.Pass?;
  }
}
