# AtlasBank domain model

A Dafny model of the domain layer of AtlasBank, a multi-tenant banking ledger. The model covers:

- the immutable `Money` value type;
- the `Entity` base, with the aggregate's buffer of pending domain events;
- the aggregates `Account`, `Transaction`, `Loan`, `FinancialProduct`, `Tenant`, `User` and `ComplianceCheck`;
- the pagination arithmetic and the tenant context of the shared application layer.

Money is pure, so it is modelled as a datatype with functions:

- A Money holds whole cents.
- Every constructor call becomes `Money.Create`, which returns a `Result`.
- A C# exception becomes a `Failure` carrying an `Errors.Error` kind.

Each aggregate is a class whose fields are updated in place, as the C# properties are:

- A property that nothing reassigns after creation is a `const`.
- Each method names the fields it may change in its `modifies` clause.
- A method that can throw returns an `Outcome` (`Pass` or `Fail(error)`). On `Fail`, it states that nothing changed.
- Every method keeps the class invariant `Valid()`.
- Each aggregate holds an `Entity<E>` for its identity, audit fields and event buffer.

The clock, `Guid.NewGuid`, `Random` and `Math.Pow` are parameters of the operations that use them.

Modules:

| module | file |
|---|---|
| `Wrappers`, `Errors` | Wrappers.dfy |
| `Text` (whitespace and case mapping) | Text.dfy |
| `Numerals` (digit formatting and reading back) | Numerals.dfy |
| `ValueObjects` (Money) | Money.dfy |
| `Enums` | Enums.dfy |
| `Entities` | Entity.dfy |
| `Accounts` | Account.dfy |
| `Transactions` | Transaction.dfy |
| `Products` | FinancialProduct.dfy |
| `Loans` | Loan.dfy |
| `Tenants` | Tenant.dfy |
| `Users` | User.dfy |
| `Compliance` | ComplianceCheck.dfy |
| `Common` (pagination, tenant context) | Pagination.dfy |

Where the documented design and the code differ, the model follows the code:

- `Transaction.Fail` has no guard. It fails a Completed transaction too, not only a Pending or Processing one.
- A Loan can hold a zero balance without being PaidOff. `MarkAsDefaulted` also applies to a PaidOff loan. The invariant the code keeps is the converse: PaidOff implies nothing is outstanding.
- `MakePayment` adds no interest to the outstanding balance: it subtracts the payment from the principal.
  - An interest-bearing loan is therefore paid off by the sum of its payments, not by amortisation.
  - In the 120000.00 at 12% over 12 months example, eleven payments of 10661.84 still leave a balance. The twelfth, clamped, pays the loan off.
  - A zero-rate loan of 100.00 over 3 months pays 33.33 a month. After its three payments it is still Active with 0.01 outstanding.
- `MakePayment` refuses a payment in another currency with `CurrencyMismatch`. The comparison with the outstanding balance throws before any field is written.
- `FinancialProduct.AddFeature` raises no event. The other mutators do.
- `FinancialProduct` does not enforce `MaximumBalance > MinimumBalance`. That rule belongs to the product command's validator, which is not modelled.

Other behaviour of the code that the model states as written:

- `Account.Freeze` works from any status.
- `Account.ApplyInterest` has no status check.
- `User.RecordFailedLogin` locks even a Deactivated user.
- `User.RecordSuccessfulLogin` clears the counter but leaves a Locked user Locked.
- The `UserCreated` event carries the e-mail as given, not lower-cased.
- A suspended Tenant can never become Active again.
- `ComplianceCheck.Approve` and `Reject` overwrite an earlier decision.

## Model

| member | source | states |
|---|---|---|
| Text.Upper | shared/AtlasBank.Core/Domain/ValueObjects/Money.cs:17 | ToUpperInvariant keeps the length, yields upper-case text, leaves upper-case text and non-letters alone, and keeps blankness |
| Text.Lower | services/tenancy/AtlasBank.Tenancy.API/Domain/Tenant.cs:40 | ToLowerInvariant keeps the length, yields lower-case text and leaves lower-case text and non-letters alone |
| Text.IsBlank | shared/AtlasBank.Core/Domain/ValueObjects/Money.cs:13 | string.IsNullOrWhiteSpace on a non-null string: every character is white space, so the empty string is blank |
| Numerals.UpperOfLowerHex | services/transactions/AtlasBank.Transactions.API/Domain/Transaction.cs:89 | upper-casing lower-case hex digits gives upper-case hex digits, and lower-casing them again gives the original |
| Numerals.PadDigitsRoundTrip | services/transactions/AtlasBank.Transactions.API/Domain/Transaction.cs:89 | a zero-padded numeral reads back as the number it prints, when the number fits the width |
| Numerals.DecimalStringIsPadded | services/accounts/AtlasBank.Accounts.API/Domain/Account.cs:102 | interpolating an int with exactly k digits prints its k-digit padded numeral |
| ValueObjects.RoundToCents | shared/AtlasBank.Core/Domain/ValueObjects/Money.cs:16 | rounding half away from zero to 2 decimals gives the cent count within half a cent of the amount, a tie going up |
| ValueObjects.DefaultCurrencyIsValid | shared/AtlasBank.Core/Domain/ValueObjects/Money.cs:20 | "ZAR" is a non-blank, upper-case code, so Money.Zero() succeeds with 0 ZAR |
| ValueObjects.Money.Create | shared/AtlasBank.Core/Domain/ValueObjects/Money.cs:8-18 | a negative amount fails with InvalidAmount, then a blank currency with InvalidCurrency; otherwise the cents are the rounded amount and the currency is upper-cased |
| ValueObjects.Money.Zero | shared/AtlasBank.Core/Domain/ValueObjects/Money.cs:20 | fails exactly for a blank currency; otherwise 0 in the upper-cased currency |
| ValueObjects.Money.Add | shared/AtlasBank.Core/Domain/ValueObjects/Money.cs:22-28 | a currency mismatch fails; otherwise the exact sum of the cents in a's currency |
| ValueObjects.Money.Subtract | shared/AtlasBank.Core/Domain/ValueObjects/Money.cs:30-36 | a currency mismatch fails; b > a fails with InvalidAmount through the constructor; otherwise the exact difference |
| ValueObjects.Money.GreaterThan | shared/AtlasBank.Core/Domain/ValueObjects/Money.cs:38-44 | a currency mismatch fails; otherwise the strict comparison of amounts, always the same answer as b < a |
| ValueObjects.Money.LessThan | shared/AtlasBank.Core/Domain/ValueObjects/Money.cs:46-52 | a currency mismatch fails; otherwise the strict comparison of amounts |
| ValueObjects.Money.MultiplyBy | shared/AtlasBank.Core/Domain/ValueObjects/Money.cs:54 | a non-negative factor keeps the currency and rounds the product to cents; a negative factor on a positive amount fails |
| ValueObjects.RoundingIsIdempotent | shared/AtlasBank.Core/Domain/ValueObjects/Money.cs:16 | re-constructing a Money from its own amount and currency gives the same Money |
| ValueObjects.AddIsAssociative | shared/AtlasBank.Core/Domain/ValueObjects/Money.cs:22-28 | same-currency addition succeeds and is associative |
| ValueObjects.SubtractUndoesAdd | shared/AtlasBank.Core/Domain/ValueObjects/Money.cs:22-36 | (a + b) - b == a for same-currency values |
| ValueObjects.RoundingExamples | shared/AtlasBank.Core/Domain/ValueObjects/Money.cs:10-17 | 10.005 rounds to 10.01 with "zar" upper-cased, 10.004 to 10.00, and -1 fails with InvalidAmount |
| Entities.GuidText | services/products/AtlasBank.Products.API/Domain/Loan.cs:126 | Guid.ToString("N") is 32 lower-case hex digits |
| Entities.Stamp.DateDigits | services/products/AtlasBank.Products.API/Domain/Loan.cs:126 | the yyyyMMdd format is 8 digits from which year, month and day read back |
| Entities.Stamp.TimeDigits | services/transactions/AtlasBank.Transactions.API/Domain/Transaction.cs:89 | the HHmmss part of the format is 6 digits from which hour, minute and second read back |
| Entities.Stamp.DateTimeDigits | services/transactions/AtlasBank.Transactions.API/Domain/Transaction.cs:89 | the yyyyMMddHHmmss format is 14 digits: the date digits followed by the time digits |
| Entities.Entity.constructor | shared/AtlasBank.Core/Domain/Common/Entity.cs:12-16 | a new entity has the given id, creation time and creator, no update stamp, is not deleted and has no events |
| Entities.Entity.MarkAsDeleted | shared/AtlasBank.Core/Domain/Common/Entity.cs:18-23 | sets IsDeleted, also when already set, and stamps the actor; the id and creation fields cannot change |
| Entities.Entity.UpdateTimestamp | shared/AtlasBank.Core/Domain/Common/Entity.cs:25-29 | stamps the actor and time and changes nothing else |
| Entities.Entity.AddDomainEvent | services/accounts/AtlasBank.Accounts.API/Domain/Account.cs:41 | appends exactly the one event to the pending buffer and changes nothing else |
| Accounts.GenerateAccountNumber | services/accounts/AtlasBank.Accounts.API/Domain/Account.cs:99-103 | "62" then the draw: ten decimal digits from which the draw reads back, so distinct draws give distinct numbers |
| Accounts.Account.Create | services/accounts/AtlasBank.Accounts.API/Domain/Account.cs:21-43 | Pending, both balances 0 ZAR, the arguments stored, exactly one AccountCreated event |
| Accounts.Account.Activate | services/accounts/AtlasBank.Accounts.API/Domain/Account.cs:45-53 | succeeds exactly from Pending and moves to Active with one event; otherwise fails and changes nothing |
| Accounts.Account.Deposit | services/accounts/AtlasBank.Accounts.API/Domain/Account.cs:55-64 | succeeds exactly on an Active account in the same currency and adds the amount to both balances; AccountNotActive, then CurrencyMismatch, otherwise with nothing changed |
| Accounts.Account.Withdraw | services/accounts/AtlasBank.Accounts.API/Domain/Account.cs:66-78 | succeeds exactly when Active, same currency and covered by the available balance, and takes the amount from both; AccountNotActive, CurrencyMismatch, then InsufficientFunds, otherwise with nothing changed |
| Accounts.Account.Freeze | services/accounts/AtlasBank.Accounts.API/Domain/Account.cs:80-85 | from any status, Frozen with one event carrying the reason |
| Accounts.MonthlyRate | services/accounts/AtlasBank.Accounts.API/Domain/Account.cs:91 | InterestRate / 100 / 12 is the monthly fraction whose 1200-fold is the annual percentage, positive exactly when the percentage is |
| Accounts.Account.ApplyInterest | services/accounts/AtlasBank.Accounts.API/Domain/Account.cs:87-97 | a rate of zero or below changes nothing; otherwise both balances grow by Balance, a twelfth of the rate percent, rounded to cents, and the date (one clock reading) and the stamp (a second reading) and event are recorded |
| Accounts.DepositThenWithdraw | services/accounts/AtlasBank.Accounts.API/Domain/Account.cs:55-78 | on an Active account a deposit and a withdrawal of the same amount both succeed and restore both balances |
| Accounts.Scenario | services/accounts/AtlasBank.Accounts.API/Domain/Account.cs:45-78 | create, activate, deposit 100: withdrawing 150 fails with InsufficientFunds and leaves 100, withdrawing 40 leaves 60.00 ZAR |
| Transactions.GenerateReference | services/transactions/AtlasBank.Transactions.API/Domain/Transaction.cs:87-90 | "TXN", the 14 timestamp digits and 8 upper-case hex digits of the Guid: 25 characters |
| Transactions.Next | services/transactions/AtlasBank.Transactions.API/Domain/Transaction.cs:54-85 | the guards of Process, Complete and Fail: Processing only from Pending, Completed only from Processing, Failed from anywhere, and never back to Pending or on to Reversed |
| Transactions.Run | services/transactions/AtlasBank.Transactions.API/Domain/Transaction.cs:54-85 | a sequence of those operations only moves forward: Failed is final, and Pending and Processing are not re-entered once left |
| Transactions.CompletedRuns | services/transactions/AtlasBank.Transactions.API/Domain/Transaction.cs:54-85 | any sequence of operations that ends Completed passed exactly through Pending, Processing, Completed from its start |
| Transactions.CompletedOnlyThroughProcessing | services/transactions/AtlasBank.Transactions.API/Domain/Transaction.cs:54-75 | from Pending, Completed is reached only along Pending, Processing, Completed |
| Transactions.NeverReversed | services/transactions/AtlasBank.Transactions.API/Domain/Transaction.cs:54-85 | no sequence of operations reaches Reversed |
| Transactions.Transaction.CreateTransfer | services/transactions/AtlasBank.Transactions.API/Domain/Transaction.cs:23-52 | a Pending Transfer holding the arguments and the generated reference, with one TransactionCreated event |
| Transactions.Transaction.Process | services/transactions/AtlasBank.Transactions.API/Domain/Transaction.cs:54-63 | succeeds exactly from Pending, moving to Processing and setting ProcessedBy; otherwise fails with nothing changed; agrees with the transition table |
| Transactions.Transaction.Complete | services/transactions/AtlasBank.Transactions.API/Domain/Transaction.cs:65-75 | succeeds exactly from Processing, moving to Completed and setting ProcessedAt from one clock reading and the stamp from a second; otherwise fails with nothing changed |
| Transactions.Transaction.Fail | services/transactions/AtlasBank.Transactions.API/Domain/Transaction.cs:77-85 | from any status, Failed with the reason, time and actor recorded (ProcessedAt and the stamp from separate clock readings), and one event |
| Loans.AmortisedClosedForm | services/products/AtlasBank.Products.API/Domain/Loan.cs:117-119 | n months of compounding then paying leave balance*(1+r)^n - payment*((1+r)^n - 1)/r |
| Loans.AnnuityRepaysExactly | services/products/AtlasBank.Products.API/Domain/Loan.cs:117-119 | the unrounded annuity payment, with growth (1+r)^term, repays principal and interest in exactly the term |
| Loans.CalculateMonthlyPayment | services/products/AtlasBank.Products.API/Domain/Loan.cs:113-122 | zero rate: a zero term divides by zero, a positive term rounds principal/months to cents in the principal's currency, a negative term fails InvalidAmount; otherwise the annuity formula rounded to cents, or a division by zero when the growth is 1 |
| Loans.ValidatedTermsHaveAPayment | services/products/AtlasBank.Products.API/Application/Commands/CreateLoanCommand.cs:28 | a term in 1..360 and a rate of zero or more give a monthly payment, provided Math.Pow returns more than 1 for a positive rate, which fails in double for positive annual rates below about 1.3e-13 percent |
| Loans.MonthlyRateOf | services/products/AtlasBank.Products.API/Domain/Loan.cs:117 | annualRate / 12 / 100 is the monthly fraction whose 1200-fold is the annual percentage, positive exactly when the percentage is |
| Loans.GenerateLoanNumber | services/products/AtlasBank.Products.API/Domain/Loan.cs:124-127 | "LN", the 8 date digits and 6 upper-case hex digits of the Guid: 16 characters |
| Loans.PayDown | services/products/AtlasBank.Products.API/Domain/Loan.cs:87-90 | the balance falls by the payment clamped to the balance, never below 0, reaching 0 exactly when the payment covers it |
| Loans.AfterPaymentsClosedForm | services/products/AtlasBank.Products.API/Domain/Loan.cs:82-104 | k equal payments clear the balance exactly when they add up to it, and otherwise reduce it by their sum |
| Loans.ZeroRateTermCanLeaveACent | services/products/AtlasBank.Products.API/Domain/Loan.cs:115 | 100.00 at zero rate over 3 months pays 33.33, and 3 payments leave 0.01 |
| Loans.TwelveMonthExample | services/products/AtlasBank.Products.API/Domain/Loan.cs:87-90 | 11 payments of 10661.84 on 120000.00 leave a balance; the 12th, clamped, clears it |
| Loans.Loan.Create | services/products/AtlasBank.Products.API/Domain/Loan.cs:26-57 | Pending, the whole principal outstanding, the term remaining, the computed payment and loan number, one LoanCreated event |
| Loans.Loan.Approve | services/products/AtlasBank.Products.API/Domain/Loan.cs:59-70 | succeeds exactly from Pending: maturity TermMonths months after disbursement, next payment one month after; otherwise fails with nothing changed |
| Loans.Loan.Disburse | services/products/AtlasBank.Products.API/Domain/Loan.cs:72-80 | succeeds exactly from Approved, moving to Active; otherwise fails with nothing changed |
| Loans.Loan.MakePayment | services/products/AtlasBank.Products.API/Domain/Loan.cs:82-104 | fails unless Active, then on a currency mismatch, with nothing changed; otherwise the balance falls by the clamped payment, one month fewer remains, the next payment moves a month on, and the loan is PaidOff with LoanPaidOff exactly when nothing remains, else LoanPaymentMade; 0 <= balance <= principal is kept |
| Loans.Loan.MarkAsDefaulted | services/products/AtlasBank.Products.API/Domain/Loan.cs:106-111 | from any status, Defaulted with one event carrying the reason |
| Loans.ZeroRateScenario | services/products/AtlasBank.Products.API/Domain/Loan.cs:26-104 | a zero-rate 100.00 loan over 3 months, paid 3 times, stays Active with 0 months remaining and 0.01 outstanding |
| Loans.RequestLoan | services/products/AtlasBank.Products.API/Application/Commands/CreateLoanCommand.cs:41-67 | a missing product gives NotFound, an ineligible amount NotEligible; otherwise a fresh Pending loan for the amount rounded to cents at the product's rate |
| Products.FinancialProduct.Create | services/products/AtlasBank.Products.API/Domain/FinancialProduct.cs:24-57 | active, holding every argument, with one ProductCreated event |
| Products.FinancialProduct.UpdateInterestRate | services/products/AtlasBank.Products.API/Domain/FinancialProduct.cs:59-68 | succeeds exactly for a rate of zero or more, setting it and recording the old and new rate; otherwise InvalidArgument with nothing changed |
| Products.FinancialProduct.UpdateFees | services/products/AtlasBank.Products.API/Domain/FinancialProduct.cs:70-76 | replaces the fee; the event carries the previous and new fee |
| Products.FinancialProduct.Deactivate | services/products/AtlasBank.Products.API/Domain/FinancialProduct.cs:78-83 | inactive, after which no balance is eligible |
| Products.FinancialProduct.Activate | services/products/AtlasBank.Products.API/Domain/FinancialProduct.cs:85-90 | active, after which exactly the balances within the range are eligible |
| Products.FinancialProduct.AddFeature | services/products/AtlasBank.Products.API/Domain/FinancialProduct.cs:92-96 | maps the key to the value, keeps every other key and value, and raises no event |
| Products.FinancialProduct.IsEligible | services/products/AtlasBank.Products.API/Domain/FinancialProduct.cs:98-101 | eligible exactly when the product is active and the balance lies within MinimumBalance..MaximumBalance, both ends included |
| Products.EligibleBalancesFormAnInterval | services/products/AtlasBank.Products.API/Domain/FinancialProduct.cs:98-101 | eligible balances form an interval within the product's range |
| Tenants.Tenant.Create | services/tenancy/AtlasBank.Tenancy.API/Domain/Tenant.cs:21-48 | Pending, the code upper-cased and the e-mail lower-cased, no settings, one TenantCreated event |
| Tenants.Tenant.Activate | services/tenancy/AtlasBank.Tenancy.API/Domain/Tenant.cs:50-59 | succeeds exactly from Pending, recording the activation time from one clock reading and the stamp from a second; otherwise fails with nothing changed |
| Tenants.Tenant.Suspend | services/tenancy/AtlasBank.Tenancy.API/Domain/Tenant.cs:61-69 | succeeds exactly from Active; otherwise fails with nothing changed |
| Tenants.Tenant.UpdateSettings | services/tenancy/AtlasBank.Tenancy.API/Domain/Tenant.cs:71-75 | replaces the settings wholesale, with no event |
| Tenants.Tenant.UpdateContactInfo | services/tenancy/AtlasBank.Tenancy.API/Domain/Tenant.cs:77-82 | stores the e-mail lower-cased and the phone, with no event; the stored e-mail stays lower-case |
| Tenants.ActivateThenSuspend | services/tenancy/AtlasBank.Tenancy.API/Domain/Tenant.cs:50-69 | activating twice and suspending twice: the second call fails each time, and the tenant ends Suspended with its first activation time |
| Users.User.Create | services/tenancy/AtlasBank.Tenancy.API/Domain/User.cs:21-46 | Active, the e-mail lower-cased, no failures and no lock, one UserCreated event carrying the e-mail as given |
| Users.User.RecordSuccessfulLogin | services/tenancy/AtlasBank.Tenancy.API/Domain/User.cs:53-58 | records the login, clears the counter and the lock time, and leaves the status alone |
| Users.User.RecordFailedLogin | services/tenancy/AtlasBank.Tenancy.API/Domain/User.cs:60-69 | adds exactly one failure; at 5 or more the user is Locked until 30 minutes from now, below 5 nothing else changes |
| Users.User.ChangePassword | services/tenancy/AtlasBank.Tenancy.API/Domain/User.cs:71-76 | stores the new hash and raises one UserPasswordChanged event |
| Users.User.UpdateRoles | services/tenancy/AtlasBank.Tenancy.API/Domain/User.cs:78-82 | replaces the roles, with no event |
| Users.User.Deactivate | services/tenancy/AtlasBank.Tenancy.API/Domain/User.cs:84-89 | from any status, Deactivated with one event |
| Users.FifthFailureLocks | services/tenancy/AtlasBank.Tenancy.API/Domain/User.cs:53-69 | from a clean counter, four failures leave the user Active, the fifth locks it for thirty minutes, and a success clears the counter but not the Locked status |
| Compliance.ComplianceCheck.Create | services/compliance/AtlasBank.Compliance.API/Domain/ComplianceCheck.cs:20-40 | Pending with score 0 and no review, one event |
| Compliance.ComplianceCheck.Approve | services/compliance/AtlasBank.Compliance.API/Domain/ComplianceCheck.cs:42-50 | from any status, Approved with the reviewer, review time and notes recorded, and the stamp taken from a second clock reading |
| Compliance.ComplianceCheck.Reject | services/compliance/AtlasBank.Compliance.API/Domain/ComplianceCheck.cs:52-60 | from any status, Rejected with the reason as notes and in the event, the review time and the stamp from separate clock readings |
| Compliance.ComplianceCheck.UpdateRiskScore | services/compliance/AtlasBank.Compliance.API/Domain/ComplianceCheck.cs:62-69 | succeeds exactly for a score in 0..100, with no event; otherwise InvalidArgument with nothing changed; the score always stays in 0..100 |
| Common.Wrap32 | shared/AtlasBank.Core/Application/Common/Interfaces.cs:11 | a 32-bit int addition yields the true sum modulo 2^32, and the sum itself when it is in range |
| Common.TruncatedDivision | shared/AtlasBank.Core/Application/Common/Interfaces.cs:11 | C# int division rounds toward zero, and is Euclidean division on a natural and a positive divisor |
| Common.RoundsTowardZero | shared/AtlasBank.Core/Application/Common/Interfaces.cs:11 | the remainder of C# division has the dividend's sign and is smaller than the divisor in magnitude: the quotient is rounded toward zero |
| Common.QuotientInRange | shared/AtlasBank.Core/Application/Common/Interfaces.cs:11 | outside int.MinValue / -1, the quotient of two ints is an int |
| Common.CeilingDivBounds | shared/AtlasBank.Core/Application/Common/Interfaces.cs:11 | the ceiling is 0 for no items, and otherwise the fewest blocks of the size that cover the count |
| Common.SumFormIsCeiling | shared/AtlasBank.Core/Application/Common/Interfaces.cs:11 | (x + y - 1) / y is the ceiling of x / y when computed exactly |
| Common.BelowCeiling | shared/AtlasBank.Core/Application/Common/Interfaces.cs:13 | page p is below the page count exactly when p pages hold fewer items than there are |
| Common.PaginationMetadata.TotalPages | shared/AtlasBank.Core/Application/Common/Interfaces.cs:11 | a zero page size divides by zero; int.MinValue / -1 overflows; otherwise the truncated quotient of the wrapped sum |
| Common.PaginationMetadata.HasPreviousPage | shared/AtlasBank.Core/Application/Common/Interfaces.cs:12 | true exactly when the page number is above 1 |
| Common.PaginationMetadata.HasNextPage | shared/AtlasBank.Core/Application/Common/Interfaces.cs:13 | fails exactly when TotalPages fails, with its error; otherwise true exactly when the page number is below TotalPages |
| Common.PaginationMetadata.CeilingPages | shared/AtlasBank.Core/Application/Common/Interfaces.cs:11 | the ceiling of TotalCount / PageSize: 0 for no items, and otherwise (pages - 1) * size < count <= pages * size |
| Common.PaginationMetadata.NextPageExists | shared/AtlasBank.Core/Application/Common/Interfaces.cs:13 | from page 1 on, a next page exists exactly when the pages so far hold fewer items than there are |
| Common.TotalPagesIsCeiling | shared/AtlasBank.Core/Application/Common/Interfaces.cs:11 | while the sum stays within int, TotalPages is the ceiling of TotalCount / PageSize |
| Common.NextPageWhenItemsRemain | shared/AtlasBank.Core/Application/Common/Interfaces.cs:13 | under the same bound, HasNextPage holds exactly when items remain after this page, so the last page has none |
| Common.TotalPagesOverflows | shared/AtlasBank.Core/Application/Common/Interfaces.cs:11 | int.MaxValue items two to a page give TotalPages -1073741824 and no next page after page 1, against 1073741824 pages by the ceiling |
| Common.TenantContext.IsAuthenticated | shared/AtlasBank.Core/Application/Common/Interfaces.cs:62 | true exactly when the user id is non-empty |

## Left out

- Controllers, MediatR handlers, EF Core contexts, the soft-delete query filter, Kafka publishing and the HTTP middleware: these are I/O and plumbing, outside the domain layer.
- Draining the pending events on save: persistence is outside the domain layer. The buffer is modelled only as a sequence that operations append to.
- The `AggregateRoot` base class is not part of this model's sources. Its event buffer is modelled from its use, as `Entities.Entity.DomainEvents` with `AddDomainEvent`.
- The `DomainEvent` base fields (event id, occurrence time): they come from the clock and `Guid.NewGuid`, and no rule depends on them.
- `DateTime.UtcNow`, `Guid.NewGuid`, `Random.Next` and the calendar reading used in formatted identifiers are non-deterministic, so they are parameters: `now`, `id`, the draw, a `Stamp` and a `Guid`. A method that reads the clock for a field of its own and again inside `UpdateTimestamp` takes two readings, `now` and `stampedAt`, so the model does not equate them. The clock's monotonicity is not modelled.
- `DateTime.AddMonths` is a month counter, so clamping to the last day of a shorter month is not modelled.
- `decimal` arithmetic is exact rational arithmetic, so 28-digit rounding of intermediate results is not modelled. This applies to `InterestRate / 100 / 12` and the zero-rate division.
- `Math.Pow` on `double` is floating point, so its result is the parameter `growth` of `Loans.CalculateMonthlyPayment`. The conversions between `double` and `decimal` are not modelled.
- BCrypt is a foreign library, so `User.Create` and `User.ChangePassword` take the hash rather than the password. `User.VerifyPassword` is left out because it is only a BCrypt call.
- Case mapping covers the ASCII letters only, so the culture tables for other scripts are not modelled.
- The dictionaries and lists that `UpdateSettings`, `AddFeature`, `UpdateRoles` and the constructors keep are values in the model. The source keeps the caller's reference, so the model does not capture later changes made through that alias.
- `FailedLoginAttempts`, `TermMonths` and `RemainingMonths` are unbounded integers, so their 32-bit wrap-around is not modelled. Pagination is modelled in 32-bit arithmetic.
- Null strings are not modelled, because Dafny strings are never null. This affects the null case of `string.IsNullOrWhiteSpace` and `IsNullOrEmpty`.
- Loans.Loan.Create: requires the monthly payment calculation to succeed instead of modelling the exception it would throw. `Loans.CalculateMonthlyPayment` states those exceptions. `Loans.ValidatedTermsHaveAPayment` shows the validated inputs avoid them, provided Math.Pow returns more than 1 for a positive rate. That fails in double for positive annual rates below about 1.3e-13 percent: `1 + monthlyRate` rounds to 1.0, and `Loan.cs:119` divides by zero.
- Products.FinancialProduct.Create: requires a non-negative rate, the product validator's rule. `Valid()` keeps the rate non-negative from then on, and the validator's other rules are not carried.
- Loans.RequestLoan: requires the loan validator's rules: a positive amount and a term in 1..360. `Loan.Create`'s requirement that the payment calculation succeeds is not a validator rule: it is expressed through `growth`, which must exceed 1 when the rate is positive.
- The integer values of the enumerations are not modelled, because no rule depends on them.
- ValueObjects.Money.Add: always succeeds on a shared currency. `decimal` has a finite range, and `Money.cs:27` throws OverflowException when the sum exceeds 79228162514264337593543950335; the model's amounts are unbounded.
- ValueObjects.Money.MultiplyBy: the same for the product at `Money.cs:54`, which throws OverflowException beyond the `decimal` range.
- Loans.Loan.Approve: the month counter is unbounded, so the ArgumentOutOfRangeException that `DateTime.AddMonths` throws past year 9999 is not modelled. In the source it comes after Status and DisbursementDate were written (`Loan.cs:64-66`), a partial update the model's all-or-nothing contract cannot show.
- Loans.Loan.MakePayment: likewise for `NextPaymentDate.AddMonths(1)`, which throws after OutstandingBalance and RemainingMonths were written (`Loan.cs:91-93`).

## Findings

| source | as written | input that shows it | evidently intended | confidence | as-written member | corrected member |
|---|---|---|---|---|---|---|
| shared/AtlasBank.Core/Application/Common/Interfaces.cs:11 | `TotalPages` computes `(TotalCount + PageSize - 1) / PageSize` in `int`, and the sum wraps around for large totals | PageSize 2, TotalCount int.MaxValue: TotalPages is -1073741824, so HasNextPage is false on page 1 | the ceiling of TotalCount / PageSize, here 1073741824 pages, with a next page after page 1 | not executed | Common.TotalPagesOverflows | Common.PaginationMetadata.CeilingPages |
