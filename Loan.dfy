/** The Loan aggregate: Pending -> Approved -> Active -> PaidOff, with Defaulted reachable from
    every status. Payments reduce the outstanding principal; no interest accrues on it. */
module Loans {
  import opened Wrappers
  import opened Errors
  import opened Text
  import opened Numerals
  import opened ValueObjects
  import opened Entities
  import opened Products

  /** A calendar month, counted from a fixed epoch; DateTime.AddMonths(k) adds k. */
  type Month = int

  /** The month a DateTime field holds before anything assigns it (default(DateTime)). */
  const NoMonth: Month := 0

  datatype LoanStatus = Pending | Approved | Active | PaidOff | Defaulted | WrittenOff

  datatype LoanEvent =
    | LoanCreated(LoanId: Guid, LoanNumber: string, CustomerId: string, Amount: Money)
    | LoanApproved(LoanId: Guid, LoanNumber: string, DisbursementDate: Month)
    | LoanDisbursed(LoanId: Guid, LoanNumber: string, Amount: Money)
    | LoanPaymentMade(LoanId: Guid, LoanNumber: string, PaymentAmount: Money, RemainingBalance: Money)
    | LoanPaidOff(LoanId: Guid, LoanNumber: string)
    | LoanDefaulted(LoanId: Guid, LoanNumber: string, Reason: string)

  /** annualRate / 12 / 100: the monthly rate of an annual percentage. */
  function MonthlyRateOf(annualRate: real): (r: real)
    ensures 1200.0 * r == annualRate
    ensures r > 0.0 <==> annualRate > 0.0
  {
    annualRate / 12.0 / 100.0
  }

  /** x to the power n. */
  function RealPow(x: real, n: nat): real
  {
    if n == 0 then 1.0 else x * RealPow(x, n - 1)
  }

  /** The annuity formula principal * (rate * growth) / (growth - 1), where growth stands for
      (1 + rate) to the power of the term. */
  function AnnuityPayment(principal: real, rate: real, growth: real): real
    requires growth != 1.0
  {
    principal * (rate * growth) / (growth - 1.0)
  }

  /** The balance of a loan after n months in which the balance first earns `rate` and then
      `payment` is paid: the independent definition the annuity formula is measured against. */
  function Amortised(balance: real, rate: real, payment: real, n: nat): real
    decreases n
  {
    if n == 0 then balance else Amortised(balance * (1.0 + rate) - payment, rate, payment, n - 1)
  }

  /** One month of the closed form: the balance after the first month, carried through the
      remaining months, matches carrying the original balance through all of them. */
  lemma ClosedFormStep(balance: real, rate: real, payment: real, g': real, g: real)
    requires rate != 0.0 && g == (1.0 + rate) * g'
    ensures (balance * (1.0 + rate) - payment) * g' - payment * ((g' - 1.0) / rate)
            == balance * g - payment * ((g - 1.0) / rate)
  {
    assert (g - 1.0) / rate == (g' - 1.0) / rate + g';
    assert (balance * (1.0 + rate) - payment) * g' == balance * g - payment * g';
  }

  /** The closed form of n months of compounding and payments. */
  lemma {:induction false} AmortisedClosedForm(balance: real, rate: real, payment: real, n: nat)
    requires rate != 0.0
    ensures Amortised(balance, rate, payment, n) ==
              balance * RealPow(1.0 + rate, n) - payment * ((RealPow(1.0 + rate, n) - 1.0) / rate)
    decreases n
  {
    if n > 0 {
      var next := balance * (1.0 + rate) - payment;
      var g', g := RealPow(1.0 + rate, n - 1), RealPow(1.0 + rate, n);
      AmortisedClosedForm(next, rate, payment, n - 1);
      ClosedFormStep(balance, rate, payment, g', g);
      assert Amortised(balance, rate, payment, n) == Amortised(next, rate, payment, n - 1);
    }
  }

  /** With growth equal to (1 + rate) to the power of the term, the unrounded annuity payment
      repays the principal with its interest in exactly that many months. */
  lemma AnnuityRepaysExactly(principal: real, rate: real, months: nat)
    requires rate != 0.0 && RealPow(1.0 + rate, months) != 1.0
    ensures Amortised(principal, rate, AnnuityPayment(principal, rate, RealPow(1.0 + rate, months)), months) == 0.0
  {
    var g := RealPow(1.0 + rate, months);
    var p := AnnuityPayment(principal, rate, g);
    AmortisedClosedForm(principal, rate, p, months);
    assert p * (g - 1.0) == principal * (rate * g);
    assert p * ((g - 1.0) / rate) == principal * g;
  }

  /** Loan.CalculateMonthlyPayment. `growth` is the value the source obtains from
      Math.Pow((double)(1 + monthlyRate), months) and converts to decimal. With a zero rate the
      principal is split evenly (a zero term divides by zero); otherwise the annuity formula is
      applied to `growth` (a growth of exactly 1 divides by zero). The result is rounded to cents
      in the principal's currency. */
  function CalculateMonthlyPayment(principal: Money, annualRate: real, months: int, growth: real): (r: Result<Money, Error>)
    requires principal.Valid()
    ensures annualRate == 0.0 && months == 0 ==> r == Failure(DivideByZero)
    ensures annualRate == 0.0 && months > 0 ==>
              && r.Success? && r.value.currency == principal.currency
              && r.value.cents as real - 0.5 <= principal.cents as real / months as real < r.value.cents as real + 0.5
    ensures annualRate == 0.0 && months < 0 && principal.cents > 0 ==> r == Failure(InvalidAmount)
    ensures annualRate != 0.0 && growth == 1.0 ==> r == Failure(DivideByZero)
    ensures annualRate != 0.0 && growth != 1.0 ==>
              r == Money.Create(AnnuityPayment(principal.Amount(), MonthlyRateOf(annualRate), growth), principal.currency)
    ensures annualRate > 0.0 && growth > 1.0 ==> r.Success? && r.value.currency == principal.currency
  {
    if annualRate == 0.0 then
      if months == 0 then Failure(DivideByZero)
      else
        var share := principal.Amount() / months as real;
        assert share * 100.0 == principal.cents as real / months as real;
        Money.Create(share, principal.currency)
    else
      var rate := MonthlyRateOf(annualRate);
      if growth == 1.0 then Failure(DivideByZero)
      else
        var payment := AnnuityPayment(principal.Amount(), rate, growth);
        assert annualRate > 0.0 && growth > 1.0 ==> rate * growth > 0.0 && payment >= 0.0;
        Money.Create(payment, principal.currency)
  }

  /** The validated inputs of a loan request (a positive term of at most 360 months, a rate of
      zero or more, and a growth factor above 1 when the rate is positive) always give a payment. */
  lemma ValidatedTermsHaveAPayment(principal: Money, annualRate: real, months: int, growth: real)
    requires principal.Valid() && 0 < months <= 360 && annualRate >= 0.0
    requires annualRate > 0.0 ==> growth > 1.0
    ensures CalculateMonthlyPayment(principal, annualRate, months, growth).Success?
  {
  }

  /** "LN", the date as yyyyMMdd, then the first six hexadecimal digits of a fresh Guid,
      upper-cased: 16 characters. */
  function GenerateLoanNumber(now: Stamp, g: Guid): (r: string)
    requires now.Valid()
    ensures |r| == 16 && r[..2] == "LN"
    ensures r[2..10] == now.DateDigits() && AllDecimal(r[2..10])
    ensures AllUpperHex(r[10..]) && Lower(r[10..]) == GuidText(g)[..6]
  {
    var hex := GuidText(g)[..6];
    UpperOfLowerHex(hex);
    var r := "LN" + now.DateDigits() + Upper(hex);
    assert r[2..10] == now.DateDigits() && r[10..] == Upper(hex);
    r
  }

  /** The outstanding cents after one payment, which is clamped to what is outstanding. */
  function PayDown(outstanding: nat, payment: nat): (r: nat)
    ensures r <= outstanding
    ensures r == 0 <==> payment >= outstanding
    ensures payment < outstanding ==> r + payment == outstanding
  {
    if payment > outstanding then 0 else outstanding - payment
  }

  /** The outstanding cents after k payments of the same amount. */
  function AfterPayments(outstanding: nat, payment: nat, k: nat): nat
  {
    if k == 0 then outstanding else AfterPayments(PayDown(outstanding, payment), payment, k - 1)
  }

  /** k equal payments clear the balance exactly when they add up to at least the balance;
      otherwise they reduce it by their sum. */
  lemma {:induction false} AfterPaymentsClosedForm(outstanding: nat, payment: nat, k: nat)
    ensures k * payment >= outstanding ==> AfterPayments(outstanding, payment, k) == 0
    ensures k * payment < outstanding ==> AfterPayments(outstanding, payment, k) == outstanding - k * payment
  {
    if k > 0 {
      AfterPaymentsClosedForm(PayDown(outstanding, payment), payment, k - 1);
      assert k * payment == (k - 1) * payment + payment;
    }
  }

  /** A zero-rate loan of 100.00 over three months pays 33.33 a month, and three payments leave
      0.01 outstanding: the loan is still Active when its payment count runs out. */
  lemma ZeroRateTermCanLeaveACent()
    ensures Money(10000, DefaultCurrency).Valid()
    ensures CalculateMonthlyPayment(Money(10000, DefaultCurrency), 0.0, 3, 0.0) == Success(Money(3333, DefaultCurrency))
    ensures AfterPayments(10000, 3333, 3) == 1 && AfterPayments(10000, 3333, 4) == 0
  {
    DefaultCurrencyIsValid();
    var r := CalculateMonthlyPayment(Money(10000, DefaultCurrency), 0.0, 3, 0.0);
    CentsUnique(10000.0 / 3.0, r.value.cents, 3333);
  }

  /** 120000.00 at a payment of 10661.84: eleven payments leave a balance and the twelfth, clamped,
      pays the loan off. No interest is added to the outstanding balance between payments. */
  lemma TwelveMonthExample()
    ensures AfterPayments(12000000, 1066184, 11) == 12000000 - 11 * 1066184 > 0
    ensures AfterPayments(12000000, 1066184, 12) == 0
  {
    AfterPaymentsClosedForm(12000000, 1066184, 11);
    AfterPaymentsClosedForm(12000000, 1066184, 12);
  }

  class Loan {
    const entity: Entity<LoanEvent>
    const TenantId: string
    const CustomerId: string
    const AccountId: string
    const LoanNumber: string
    const ProductId: Guid
    const PrincipalAmount: Money
    const InterestRate: real
    const TermMonths: int
    const MonthlyPayment: Money
    var OutstandingBalance: Money
    var RemainingMonths: int
    var DisbursementDate: Month
    var MaturityDate: Option<Month>
    var NextPaymentDate: Month
    var Status: LoanStatus

    /** What every operation keeps: the outstanding balance lies between 0 and the principal in
        the principal's currency, PaidOff means nothing is outstanding, nothing is paid before the
        loan is Active, and the payment schedule ends at the maturity month. */
    predicate Valid()
      reads this
    {
      && PrincipalAmount.Valid() && MonthlyPayment.currency == PrincipalAmount.currency
      && OutstandingBalance.currency == PrincipalAmount.currency
      && OutstandingBalance.cents <= PrincipalAmount.cents
      && Status != LoanStatus.WrittenOff
      && (Status == LoanStatus.PaidOff ==> OutstandingBalance.cents == 0)
      && ((Status == LoanStatus.Pending || Status == LoanStatus.Approved) ==>
            OutstandingBalance == PrincipalAmount && RemainingMonths == TermMonths)
      && ((Status == LoanStatus.Approved || Status == LoanStatus.Active || Status == LoanStatus.PaidOff) ==>
            MaturityDate.Some?)
      && (MaturityDate.None? ==> OutstandingBalance == PrincipalAmount && RemainingMonths == TermMonths)
      && (MaturityDate.Some? ==>
            MaturityDate.value == DisbursementDate + TermMonths
            && NextPaymentDate + RemainingMonths == MaturityDate.value + 1)
    }

    /** Loan.Create: Pending, the whole principal outstanding, the monthly payment computed from
        the terms, one LoanCreated event. */
    constructor Create(tenantId: string, customerId: string, accountId: string, productId: Guid,
                       principalAmount: Money, interestRate: real, termMonths: int, createdBy: string,
                       id: Guid, now: Instant, numberStamp: Stamp, numberGuid: Guid, growth: real)
      requires principalAmount.Valid() && numberStamp.Valid()
      requires CalculateMonthlyPayment(principalAmount, interestRate, termMonths, growth).Success?
      ensures Valid() && fresh(entity)
      ensures LoanNumber == GenerateLoanNumber(numberStamp, numberGuid)
      ensures TenantId == tenantId && CustomerId == customerId && AccountId == accountId && ProductId == productId
      ensures PrincipalAmount == principalAmount && OutstandingBalance == principalAmount
      ensures InterestRate == interestRate && TermMonths == termMonths && RemainingMonths == termMonths
      ensures MonthlyPayment == CalculateMonthlyPayment(principalAmount, interestRate, termMonths, growth).value
      ensures Status == LoanStatus.Pending && MaturityDate == None
      ensures DisbursementDate == NoMonth && NextPaymentDate == NoMonth
      ensures entity.Id == id && entity.CreatedAt == now && entity.CreatedBy == createdBy
      ensures entity.UpdatedAt == None && !entity.IsDeleted
      ensures entity.DomainEvents == [LoanCreated(id, LoanNumber, customerId, principalAmount)]
    {
      var e := new Entity<LoanEvent>(id, now, createdBy);
      entity := e;
      MonthlyPayment := CalculateMonthlyPayment(principalAmount, interestRate, termMonths, growth).value;
      TenantId, CustomerId, AccountId := tenantId, customerId, accountId;
      LoanNumber := GenerateLoanNumber(numberStamp, numberGuid);
      ProductId := productId;
      PrincipalAmount, OutstandingBalance := principalAmount, principalAmount;
      InterestRate, TermMonths, RemainingMonths := interestRate, termMonths, termMonths;
      Status := LoanStatus.Pending;
      DisbursementDate, MaturityDate, NextPaymentDate := NoMonth, None, NoMonth;
      new;
      e.AddDomainEvent(LoanCreated(id, LoanNumber, customerId, principalAmount));
    }

    /** Only a Pending loan can be approved; it fixes the disbursement month, the maturity month
        TermMonths later and the first payment a month later. Otherwise nothing changes. */
    method Approve(disbursementDate: Month, approvedBy: string, now: Instant) returns (r: Outcome<Error>)
      requires Valid()
      modifies this`Status, this`DisbursementDate, this`MaturityDate, this`NextPaymentDate,
               entity`UpdatedAt, entity`UpdatedBy, entity`DomainEvents
      ensures Valid()
      ensures r.Pass? <==> old(Status) == LoanStatus.Pending
      ensures r.Fail? ==> r == Outcome.Fail(IllegalStateTransition) && unchanged(this, entity)
      ensures r.Pass? ==> && Status == LoanStatus.Approved && DisbursementDate == disbursementDate
                          && MaturityDate == Some(disbursementDate + TermMonths)
                          && NextPaymentDate == disbursementDate + 1
                          && entity.StampedBy(approvedBy, now)
                          && entity.DomainEvents == old(entity.DomainEvents) + [LoanApproved(entity.Id, LoanNumber, disbursementDate)]
    {
      if Status != LoanStatus.Pending {
        return Outcome.Fail(IllegalStateTransition);
      }
      Status := LoanStatus.Approved;
      DisbursementDate := disbursementDate;
      MaturityDate := Some(disbursementDate + TermMonths);
      NextPaymentDate := disbursementDate + 1;
      entity.UpdateTimestamp(approvedBy, now);
      entity.AddDomainEvent(LoanApproved(entity.Id, LoanNumber, DisbursementDate));
      return Pass;
    }

    /** Only an Approved loan can be disbursed, which makes it Active. Otherwise nothing changes. */
    method Disburse(disbursedBy: string, now: Instant) returns (r: Outcome<Error>)
      requires Valid()
      modifies this`Status, entity`UpdatedAt, entity`UpdatedBy, entity`DomainEvents
      ensures Valid()
      ensures r.Pass? <==> old(Status) == LoanStatus.Approved
      ensures r.Fail? ==> r == Outcome.Fail(IllegalStateTransition) && unchanged(this, entity)
      ensures r.Pass? ==> && Status == LoanStatus.Active && entity.StampedBy(disbursedBy, now)
                          && entity.DomainEvents == old(entity.DomainEvents) + [LoanDisbursed(entity.Id, LoanNumber, PrincipalAmount)]
    {
      if Status != LoanStatus.Approved {
        return Outcome.Fail(IllegalStateTransition);
      }
      Status := LoanStatus.Active;
      entity.UpdateTimestamp(disbursedBy, now);
      entity.AddDomainEvent(LoanDisbursed(entity.Id, LoanNumber, PrincipalAmount));
      return Pass;
    }

    /** Only an Active loan takes payments; a payment in another currency is refused next, with
        nothing changed. The payment is clamped to the outstanding balance, the count of remaining
        months drops by one and the next payment moves a month on. The loan is PaidOff, with a
        LoanPaidOff event, exactly when nothing remains outstanding; otherwise the event records the
        amount actually paid and the new balance. */
    method MakePayment(paymentAmount: Money, paidBy: string, now: Instant) returns (r: Outcome<Error>)
      requires Valid()
      modifies this`OutstandingBalance, this`RemainingMonths, this`NextPaymentDate, this`Status,
               entity`UpdatedAt, entity`UpdatedBy, entity`DomainEvents
      ensures Valid()
      ensures r.Pass? <==> old(Status) == LoanStatus.Active && paymentAmount.currency == old(OutstandingBalance).currency
      ensures old(Status) != LoanStatus.Active ==> r == Outcome.Fail(IllegalStateTransition)
      ensures old(Status) == LoanStatus.Active && paymentAmount.currency != old(OutstandingBalance).currency ==>
                r == Outcome.Fail(CurrencyMismatch)
      ensures r.Fail? ==> unchanged(this, entity)
      ensures r.Pass? ==>
                var paid := if paymentAmount.cents > old(OutstandingBalance).cents then old(OutstandingBalance) else paymentAmount;
                && OutstandingBalance == Money(PayDown(old(OutstandingBalance).cents, paymentAmount.cents), PrincipalAmount.currency)
                && RemainingMonths == old(RemainingMonths) - 1
                && NextPaymentDate == old(NextPaymentDate) + 1
                && (Status == LoanStatus.PaidOff <==> OutstandingBalance.cents == 0)
                && (Status != LoanStatus.PaidOff ==> Status == LoanStatus.Active)
                && entity.StampedBy(paidBy, now)
                && entity.DomainEvents == old(entity.DomainEvents) +
                     [if Status == LoanStatus.PaidOff then LoanPaidOff(entity.Id, LoanNumber)
                      else LoanPaymentMade(entity.Id, LoanNumber, paid, OutstandingBalance)]
    {
      if Status != LoanStatus.Active {
        return Outcome.Fail(IllegalStateTransition);
      }
      var over := paymentAmount.GreaterThan(OutstandingBalance);
      if over.Failure? {
        return Outcome.Fail(over.error);
      }
      var paid := if over.value then OutstandingBalance else paymentAmount;
      OutstandingBalance := OutstandingBalance.Subtract(paid).value;
      RemainingMonths := RemainingMonths - 1;
      NextPaymentDate := NextPaymentDate + 1;
      entity.UpdateTimestamp(paidBy, now);
      if OutstandingBalance.Amount() <= 0.0 {
        Status := LoanStatus.PaidOff;
        entity.AddDomainEvent(LoanPaidOff(entity.Id, LoanNumber));
      } else {
        entity.AddDomainEvent(LoanPaymentMade(entity.Id, LoanNumber, paid, OutstandingBalance));
      }
      return Pass;
    }

    /** Marks the loan Defaulted from any status, a PaidOff one included. */
    method MarkAsDefaulted(reason: string, markedBy: string, now: Instant)
      requires Valid()
      modifies this`Status, entity`UpdatedAt, entity`UpdatedBy, entity`DomainEvents
      ensures Valid()
      ensures Status == LoanStatus.Defaulted && entity.StampedBy(markedBy, now)
      ensures entity.DomainEvents == old(entity.DomainEvents) + [LoanDefaulted(entity.Id, LoanNumber, reason)]
    {
      Status := LoanStatus.Defaulted;
      entity.UpdateTimestamp(markedBy, now);
      entity.AddDomainEvent(LoanDefaulted(entity.Id, LoanNumber, reason));
    }
  }

  /** A zero-rate loan of 100.00 over three months, approved, disbursed and paid three times at
      its monthly payment of 33.33: no payments remain scheduled, yet 0.01 is outstanding and the
      loan is still Active. */
  method ZeroRateScenario(id: Guid, now: Instant, numberStamp: Stamp, numberGuid: Guid)
    returns (loan: Loan)
    requires numberStamp.Valid()
    ensures loan.Valid() && loan.Status == LoanStatus.Active
    ensures loan.MonthlyPayment == Money(3333, DefaultCurrency)
    ensures loan.RemainingMonths == 0 && loan.OutstandingBalance == Money(1, DefaultCurrency)
  {
    ZeroRateTermCanLeaveACent();
    var principal := Money(10000, DefaultCurrency);
    loan := new Loan.Create("tenant", "customer", "account", id, principal, 0.0, 3, "officer",
                            id, now, numberStamp, numberGuid, 0.0);
    var r := loan.Approve(1, "officer", now);
    r := loan.Disburse("officer", now);
    var payment := loan.MonthlyPayment;
    r := loan.MakePayment(payment, "customer", now);
    assert loan.OutstandingBalance == Money(6667, DefaultCurrency);
    r := loan.MakePayment(payment, "customer", now);
    assert loan.OutstandingBalance == Money(3334, DefaultCurrency);
    r := loan.MakePayment(payment, "customer", now);
  }

  /** The loan request: refuses a missing product, then an amount the product does not make
      eligible; otherwise creates a Pending loan for the amount, rounded to cents, at the
      product's rate. */
  method RequestLoan(product: FinancialProduct?, tenantId: string, customerId: string, accountId: string,
                     amount: real, termMonths: int,
                     id: Guid, now: Instant, numberStamp: Stamp, numberGuid: Guid, growth: real)
    returns (r: Result<Loan, Error>)
    requires amount > 0.0 && 0 < termMonths <= 360 && numberStamp.Valid()
    requires product != null ==> product.Valid() && (product.InterestRate > 0.0 ==> growth > 1.0)
    ensures product == null ==> r == Failure(NotFound)
    ensures product != null && !product.IsEligible(amount) ==> r == Failure(NotEligible)
    ensures product != null && product.IsEligible(amount) ==>
              && r.Success? && fresh(r.value) && r.value.Valid()
              && r.value.Status == LoanStatus.Pending && r.value.ProductId == product.entity.Id
              && r.value.PrincipalAmount == Money(RoundToCents(amount), DefaultCurrency)
              && r.value.OutstandingBalance == r.value.PrincipalAmount
              && r.value.InterestRate == product.InterestRate && r.value.TermMonths == termMonths
              && r.value.LoanNumber == GenerateLoanNumber(numberStamp, numberGuid)
  {
    if product == null {
      return Failure(NotFound);
    }
    DefaultCurrencyIsValid();
    var principalAmount := Money.Create(amount).value;
    if !product.IsEligible(amount) {
      return Failure(NotEligible);
    }
    ValidatedTermsHaveAPayment(principalAmount, product.InterestRate, termMonths, growth);
    var loan := new Loan.Create(tenantId, customerId, accountId, product.entity.Id, principalAmount,
                                product.InterestRate, termMonths, "system", id, now, numberStamp, numberGuid, growth);
    return Success(loan);
  }
}
