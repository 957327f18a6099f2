/** The `Loan` record of the loan service and its amortization engine.

    A loan has an amount, an annual interest rate in percent and a term in months.
    Its schedule is a month-by-month ledger built by repeating one payment step,
    with every portion rounded to the cent as it is computed, and cached on the
    loan the first time it is asked for.
 */
module Loans {
  import opened Money

  datatype Option<T> = None | Some(value: T)

  /** The one exception the schedule computation can raise: Python's `ZeroDivisionError`. */
  datatype ArithmeticError = ZeroDivisionError

  datatype Result<T> = Ok(value: T) | Err(error: ArithmeticError)

  /** A user or loan identifier (a 128-bit UUID). */
  type Uuid = nat

  /** What one payment step returns, each portion rounded to the cent. */
  datatype Payment = Payment(principalRemaining: real, currentPrincipalPayment: real, currentInterestPayment: real)

  /** One month of the ledger. */
  datatype Entry = Entry(
    month: int,
    remainingBalance: real,
    monthlyPayment: real,
    aggregatePrincipalPaid: real,
    aggregateInterestPaid: real)

  /** The monthly periodic rate of an annual rate given in percent. */
  function MonthlyRate(annualInterestRate: real): (mpr: real)
    ensures mpr * 1200.0 == annualInterestRate
  {
    annualInterestRate / 100.0 / 12.0
  }

  /** `(1 + mpr) ** -loanTerm`; Python refuses to raise 0.0 to a negative power. */
  function Discount(mpr: real, loanTerm: int): (r: Result<real>)
    ensures r.Err? <==> loanTerm > 0 && 1.0 + mpr == 0.0
    ensures r.Ok? && loanTerm > 0 ==> r.value * Pow(1.0 + mpr, loanTerm) == 1.0
    ensures loanTerm <= 0 ==> r == Ok(Pow(1.0 + mpr, -loanTerm))
  {
    if loanTerm > 0 then
      if 1.0 + mpr == 0.0 then Err(ZeroDivisionError)
      else
        PowNonZero(1.0 + mpr, loanTerm);
        Ok(1.0 / Pow(1.0 + mpr, loanTerm))
    else Ok(Pow(1.0 + mpr, -loanTerm))
  }

  /** The level installment `amount * mpr / (1 - (1 + mpr) ** -loanTerm)`. */
  function Installment(amount: real, mpr: real, loanTerm: int): (r: Result<real>)
    ensures r.Err? <==> Discount(mpr, loanTerm).Err? || Discount(mpr, loanTerm).value == 1.0
    ensures r.Ok? ==> r.value * (1.0 - Discount(mpr, loanTerm).value) == amount * mpr
  {
    var d := Discount(mpr, loanTerm);
    if d.Err? then Err(d.error)
    else if 1.0 - d.value == 0.0 then Err(ZeroDivisionError)
    else Ok(amount * mpr / (1.0 - d.value))
  }

  /** One run of the amortization loop: the amount, the monthly rate, the installment and the term. */
  datatype Plan = Plan(amount: real, mpr: real, installment: real, term: int) {

    /** The balance after `k` payments, each step rounded as the loop rounds it. */
    function Balance(k: nat): real {
      if k == 0 then amount
      else Loan.MakePayment(Balance(k - 1), mpr, installment).principalRemaining
    }

    /** The payment step of month `k`. */
    function Step(k: nat): Payment
      requires 1 <= k
    {
      Loan.MakePayment(Balance(k - 1), mpr, installment)
    }

    /** The rounded interest portions of months 1..k, summed. */
    function InterestPaid(k: nat): real {
      if k == 0 then 0.0 else InterestPaid(k - 1) + Step(k).currentInterestPayment
    }

    /** The ledger entry of month `k`. */
    function EntryAt(k: nat): Entry
      requires 1 <= k
    {
      var p := Step(k);
      Entry(k, p.principalRemaining, p.currentPrincipalPayment + p.currentInterestPayment,
            amount - p.principalRemaining, InterestPaid(k))
    }

    /** The number of months the loop runs once it has run `k`: it goes on while
        the balance is positive and months of the term remain. */
    function MonthsFrom(k: nat): (n: nat)
      ensures k <= n
      decreases term - k
    {
      if Balance(k) > 0.0 && k < term then MonthsFrom(k + 1) else k
    }

    function Months(): nat {
      MonthsFrom(0)
    }

    /** The entries of months 1..n, in order. */
    function Entries(n: nat): (s: seq<Entry>)
      ensures |s| == n
    {
      if n == 0 then [] else Entries(n - 1) + [EntryAt(n)]
    }

    /** Entry `i` of `Entries(n)` is the entry of month `i + 1`. */
    lemma {:induction false} EntriesIndex(n: nat)
      ensures forall i :: 0 <= i < n ==> Entries(n)[i] == EntryAt(i + 1)
    {
      if n > 0 {
        EntriesIndex(n - 1);
        var s := Entries(n - 1);
        assert Entries(n) == s + [EntryAt(n)];
        forall i | 0 <= i < n
          ensures Entries(n)[i] == EntryAt(i + 1)
        {
          if i < n - 1 {
            assert Entries(n)[i] == s[i];
          }
        }
      }
    }

    /** The ledger the loop produces. */
    function Ledger(): (s: seq<Entry>)
      ensures |s| == Months()
    {
      Entries(Months())
    }

    /** Month `k + 1` unfolded: one payment step from the balance and interest
        total after `k` months. */
    lemma {:induction false} StepFrom(k: nat, balance: real, interest: real)
      requires balance == Balance(k) && interest == InterestPaid(k)
      ensures Step(k + 1) == Loan.MakePayment(balance, mpr, installment)
      ensures Balance(k + 1) == Step(k + 1).principalRemaining
      ensures InterestPaid(k + 1) == interest + Step(k + 1).currentInterestPayment
      ensures EntryAt(k + 1) == Entry(k + 1, Balance(k + 1),
        Step(k + 1).currentPrincipalPayment + Step(k + 1).currentInterestPayment,
        amount - Balance(k + 1), InterestPaid(k + 1))
      ensures Entries(k + 1) == Entries(k) + [EntryAt(k + 1)]
    {
    }

    /** The balance after `k` payments when nothing is rounded. */
    function ExactBalance(k: nat): real {
      if k == 0 then amount
      else ExactBalance(k - 1) - (installment - ExactBalance(k - 1) * mpr)
    }
  }

  /** The schedule of a loan's terms, or the error its computation raises. */
  function Schedule(amount: real, annualInterestRate: real, loanTerm: int): Result<seq<Entry>> {
    var mpr := MonthlyRate(annualInterestRate);
    match Installment(amount, mpr, loanTerm)
    case Err(e) => Err(e)
    case Ok(payment) => Ok(Plan(amount, mpr, payment, loanTerm).Ledger())
  }

  /** Python's `schedule[month - 1]`, with `None` in place of `IndexError`. */
  function LookupMonth(schedule: seq<Entry>, month: int): (r: Option<Entry>)
    ensures r.Some? <==> 1 - |schedule| <= month <= |schedule|
    ensures 1 <= month <= |schedule| ==> r == Some(schedule[month - 1])
    ensures 1 - |schedule| <= month <= 0 ==> r == Some(schedule[|schedule| + month - 1])
  {
    var i := month - 1;
    if 0 <= i < |schedule| then Some(schedule[i])
    else if -|schedule| <= i < 0 then Some(schedule[|schedule| + i])
    else None
  }

  class Loan {
    var loanId: Uuid
    var userId: Uuid
    var amount: real
    var annualInterestRate: real
    var loanTerm: int
    var loanSchedule: seq<Entry>

    /** The cache is either unset or holds the schedule of the loan's own terms. */
    ghost predicate Valid()
      reads this
    {
      loanSchedule == [] || Schedule(amount, annualInterestRate, loanTerm) == Ok(loanSchedule)
    }

    constructor (loanId: Uuid, userId: Uuid, amount: real, annualInterestRate: real, loanTerm: int)
      ensures Valid()
      ensures this.loanId == loanId && this.userId == userId && this.amount == amount
      ensures this.annualInterestRate == annualInterestRate && this.loanTerm == loanTerm
      ensures loanSchedule == []
    {
      this.loanId := loanId;
      this.userId := userId;
      this.amount := amount;
      this.annualInterestRate := annualInterestRate;
      this.loanTerm := loanTerm;
      this.loanSchedule := [];
    }

    /** One payment: the interest on the balance, the rest of the payment as
        principal, and the new balance; each of the three rounded on its own
        from the unrounded values. */
    static function MakePayment(principalRemaining: real, mpr: real, monthlyPayment: real): (p: Payment)
      ensures p.principalRemaining == Round2(principalRemaining * (1.0 + mpr) - monthlyPayment)
      ensures -0.01 <= p.currentPrincipalPayment + p.currentInterestPayment - monthlyPayment <= 0.01
      ensures -0.01 <= p.principalRemaining - (principalRemaining - p.currentPrincipalPayment) <= 0.01
    {
      var currentInterestPayment := principalRemaining * mpr;
      var currentPrincipalPayment := monthlyPayment - currentInterestPayment;
      var remaining := principalRemaining - currentPrincipalPayment;
      assert remaining == principalRemaining * (1.0 + mpr) - monthlyPayment;
      Round2Bounds(currentPrincipalPayment);
      Round2Bounds(currentInterestPayment);
      Round2Bounds(remaining);
      Payment(Round2(remaining), Round2(currentPrincipalPayment), Round2(currentInterestPayment))
    }

    /** The loan's schedule: the cached one if there is one, else computed and cached. */
    method GetLoanSchedule() returns (r: Result<seq<Entry>>)
      requires Valid()
      modifies this`loanSchedule
      ensures Valid()
      ensures r == Schedule(amount, annualInterestRate, loanTerm)
      ensures old(loanSchedule) != [] ==> loanSchedule == old(loanSchedule)
      ensures loanSchedule == if r.Ok? then r.value else old(loanSchedule)
    {
      if loanSchedule != [] {
        return Ok(loanSchedule);
      }
      r := ComputeSchedule(amount, annualInterestRate, loanTerm);
      if r.Ok? {
        loanSchedule := r.value;
      }
    }

    /** The amortization loop of the schedule computation. */
    static method ComputeSchedule(amount: real, annualInterestRate: real, loanTerm: int) returns (r: Result<seq<Entry>>)
      ensures r == Schedule(amount, annualInterestRate, loanTerm)
    {
      var apr := annualInterestRate / 100.0;
      var mpr := apr / 12.0;
      var principalRemaining := amount;
      var termRemaining := loanTerm;
      var installment := Installment(principalRemaining, mpr, loanTerm);
      if installment.Err? {
        return Err(installment.error);
      }
      var monthlyPayment := installment.value;
      ghost var plan := Plan(amount, mpr, monthlyPayment, loanTerm);
      var totalInterestPaid := 0.0;
      var payments: seq<Entry> := [];
      while principalRemaining > 0.0 && termRemaining > 0
        invariant |payments| == loanTerm - termRemaining
        invariant principalRemaining == plan.Balance(|payments|)
        invariant totalInterestPaid == plan.InterestPaid(|payments|)
        invariant plan.MonthsFrom(|payments|) == plan.Months()
        invariant payments == plan.Entries(|payments|)
        decreases termRemaining
      {
        ghost var k := |payments|;
        var curPayment := MakePayment(principalRemaining, mpr, monthlyPayment);
        plan.StepFrom(k, principalRemaining, totalInterestPaid);
        principalRemaining := curPayment.principalRemaining;
        termRemaining := termRemaining - 1;
        totalInterestPaid := totalInterestPaid + curPayment.currentInterestPayment;
        payments := payments + [Entry(
          loanTerm - termRemaining,
          principalRemaining,
          curPayment.currentPrincipalPayment + curPayment.currentInterestPayment,
          amount - principalRemaining,
          totalInterestPaid)];
        assert payments == plan.Entries(k) + [plan.EntryAt(k + 1)];
      }
      assert payments == plan.Ledger();
      r := Ok(payments);
    }

    /** The entry at Python index `month - 1` of the schedule, or `None` when there is none. */
    method GetLoanSummaryForMonth(month: int) returns (r: Result<Option<Entry>>)
      requires Valid()
      modifies this`loanSchedule
      ensures Valid()
      ensures Schedule(amount, annualInterestRate, loanTerm).Err? ==> r == Err(Schedule(amount, annualInterestRate, loanTerm).error)
      ensures Schedule(amount, annualInterestRate, loanTerm).Ok? ==> r == Ok(LookupMonth(Schedule(amount, annualInterestRate, loanTerm).value, month))
      ensures old(loanSchedule) != [] ==> loanSchedule == old(loanSchedule)
      ensures loanSchedule == if Schedule(amount, annualInterestRate, loanTerm).Ok?
        then Schedule(amount, annualInterestRate, loanTerm).value else old(loanSchedule)
    {
      var schedule := GetLoanSchedule();
      if schedule.Err? {
        return Err(schedule.error);
      }
      r := Ok(LookupMonth(schedule.value, month));
    }

    /** Hands the loan to another user; nothing else about it changes. */
    method TransferToUser(userId: Uuid)
      requires Valid()
      modifies this`userId
      ensures Valid()
      ensures this.userId == userId
    {
      this.userId := userId;
    }
  }
}
