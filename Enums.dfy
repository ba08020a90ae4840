/** The shared status and type enumerations. */
module Enums {

  datatype AccountStatus = Pending | Active | Frozen | Suspended | Closed

  datatype TransactionStatus = Pending | Processing | Completed | Failed | Reversed

  datatype TransactionType = Deposit | Withdrawal | Transfer | Fee | Interest | Reversal

  datatype ProductType = CurrentAccount | SavingsAccount | FixedDeposit | PersonalLoan | CreditCard | MortgageLoan

  datatype ComplianceCheckType = KYC | AML | Sanctions | PEP | TransactionLimit | RiskScoring

  datatype ComplianceStatus = Pending | Approved | Rejected | UnderReview | Escalated
}
