/** The checks a loan creation request goes through before a loan is made. */
module Validation {
  import opened Loans
  import opened LoanProperties
  import opened Amortization

  /** A request to create a loan; the user id is already parsed. */
  datatype LoanCreationRequest = LoanCreationRequest(
    userId: Uuid,
    amount: real,
    annualInterestRate: real,
    loanTerm: int)

  const UserNotFound: string := "User not found"
  const AmountNotPositive: string := "Loan Amount must be a positive number"
  const RateNotPositive: string := "Interest Rate must be a positive number"
  const TermNotPositive: string := "Loan Term must be a positive number"

  /** The first check the request fails, in the order user, amount, rate,
      term; `None` when it passes them all. */
  function ValidateLoanCreationRequest(request: LoanCreationRequest, users: set<Uuid>): (r: Option<string>)
    ensures r == Some(UserNotFound) <==> request.userId !in users
    ensures r == Some(AmountNotPositive) <==> request.userId in users && request.amount <= 0.0
    ensures r == Some(RateNotPositive)
      <==> request.userId in users && 0.0 < request.amount && request.annualInterestRate <= 0.0
    ensures r == Some(TermNotPositive)
      <==> request.userId in users && 0.0 < request.amount && 0.0 < request.annualInterestRate
           && request.loanTerm <= 0
    ensures r.None?
      <==> request.userId in users && 0.0 < request.amount && 0.0 < request.annualInterestRate
           && 0 < request.loanTerm
  {
    if request.userId !in users then Some(UserNotFound)
    else if request.amount <= 0.0 then Some(AmountNotPositive)
    else if request.annualInterestRate <= 0.0 then Some(RateNotPositive)
    else if request.loanTerm <= 0 then Some(TermNotPositive)
    else None
  }

  /** A request that passes validation describes a loan whose schedule can be
      computed and has between one and `loanTerm` months. */
  lemma AcceptedRequestHasSchedule(request: LoanCreationRequest, users: set<Uuid>)
    requires ValidateLoanCreationRequest(request, users).None?
    ensures var s := Schedule(request.amount, request.annualInterestRate, request.loanTerm);
      s.Ok? && 1 <= |s.value| <= request.loanTerm
  {
    var mpr := MonthlyRate(request.annualInterestRate);
    InstallmentCoversInterest(request.amount, mpr, request.loanTerm);
    LedgerShape(Plan(request.amount, mpr, Installment(request.amount, mpr, request.loanTerm).value, request.loanTerm));
  }
}
