/** What the amortization loop guarantees about the ledger it builds. */
module LoanProperties {
  import opened Money
  import opened Loans

  /** The loop stops at the first month whose balance is not positive, or when
      the term runs out, whichever comes first. */
  lemma {:induction false} MonthsFromFacts(plan: Plan, k: nat)
    ensures var n := plan.MonthsFrom(k);
      && (n == k || n <= plan.term)
      && (forall j :: k <= j < n ==> plan.Balance(j) > 0.0 && j < plan.term)
      && (plan.Balance(n) <= 0.0 || plan.term <= n)
    decreases plan.term - k
  {
    if plan.Balance(k) > 0.0 && k < plan.term {
      var n := plan.MonthsFrom(k + 1);
      assert plan.MonthsFrom(k) == n;
      MonthsFromFacts(plan, k + 1);
      forall j | k <= j < n
        ensures plan.Balance(j) > 0.0 && j < plan.term
      {
        if j > k {
          assert k + 1 <= j < n;
        }
      }
    }
  }

  /** Entry `i` of the ledger is the entry of month `i + 1`. */
  lemma LedgerIndex(plan: Plan)
    ensures forall i :: 0 <= i < |plan.Ledger()| ==> plan.Ledger()[i] == plan.EntryAt(i + 1)
  {
    plan.EntriesIndex(plan.Months());
  }

  /** The ledger's length, numbering and stopping rule. */
  lemma {:induction false} LedgerShape(plan: Plan)
    ensures var s := plan.Ledger();
      && (plan.term <= 0 ==> s == [])
      && (0 <= plan.term ==> |s| <= plan.term)
      && (s == [] <==> plan.amount <= 0.0 || plan.term <= 0)
      && (forall i :: 0 <= i < |s| ==> s[i].month == i + 1)
      && (forall i :: 0 <= i < |s| - 1 ==> s[i].remainingBalance > 0.0)
      && (0 < |s| < plan.term ==> s[|s| - 1].remainingBalance <= 0.0)
      && (forall i :: 0 <= i < |s| ==> s[i].aggregatePrincipalPaid == plan.amount - s[i].remainingBalance)
  {
    var s := plan.Ledger();
    var n := plan.Months();
    MonthsFromFacts(plan, 0);
    LedgerIndex(plan);
    assert n > 0 ==> plan.Balance(0) > 0.0 && 0 < plan.term;
    forall i | 0 <= i < |s| - 1
      ensures s[i].remainingBalance > 0.0
    {
      assert s[i].remainingBalance == plan.Balance(i + 1);
    }
    if 0 < n < plan.term {
      assert s[n - 1].remainingBalance == plan.Balance(n);
    }
  }

  /** Entry `e`, numbered `month`, is what one payment step makes of the
      previous balance and the interest paid so far. */
  predicate Extends(plan: Plan, balance: real, interestSoFar: real, e: Entry, month: int) {
    var p := Loan.MakePayment(balance, plan.mpr, plan.installment);
    e == Entry(month, p.principalRemaining, p.currentPrincipalPayment + p.currentInterestPayment,
               plan.amount - p.principalRemaining, interestSoFar + p.currentInterestPayment)
  }

  /** Each entry follows from the one before it by one payment step: the
      balance is carried over and the interest total grows by the rounded
      interest portion. */
  lemma {:induction false} LedgerSteps(plan: Plan)
    ensures var s := plan.Ledger();
      && (|s| > 0 ==> Extends(plan, plan.amount, 0.0, s[0], 1))
      && (forall i :: 1 <= i < |s| ==>
            Extends(plan, s[i - 1].remainingBalance, s[i - 1].aggregateInterestPaid, s[i], i + 1))
  {
    var s := plan.Ledger();
    LedgerIndex(plan);
    if |s| > 0 {
      plan.StepFrom(0, plan.amount, 0.0);
    }
    forall i | 1 <= i < |s|
      ensures Extends(plan, s[i - 1].remainingBalance, s[i - 1].aggregateInterestPaid, s[i], i + 1)
    {
      plan.StepFrom(i, s[i - 1].remainingBalance, s[i - 1].aggregateInterestPaid);
    }
  }

  /** The three portions of one payment are whole cents, each within half a
      cent of the value it rounds. */
  lemma PaymentInCents(balance: real, mpr: real, payment: real)
    ensures var p := Loan.MakePayment(balance, mpr, payment);
      && IsCents(p.principalRemaining) && IsCents(p.currentPrincipalPayment) && IsCents(p.currentInterestPayment)
      && -0.005 <= p.currentInterestPayment - balance * mpr <= 0.005
      && -0.005 <= p.currentPrincipalPayment - (payment - balance * mpr) <= 0.005
  {
    Round2Bounds(balance * mpr);
    Round2Bounds(payment - balance * mpr);
    Round2Bounds(balance * (1.0 + mpr) - payment);
  }

  /** The three portions are rounded independently: a payment can lower the
      balance by a different amount than the principal portion it reports,
      and report a total that is not the installment. */
  lemma IndependentRounding()
    ensures var p := Loan.MakePayment(0.014, 0.0, 0.004);
      && p.principalRemaining == 0.01
      && p.currentPrincipalPayment == 0.0
      && p.currentInterestPayment == 0.0
      && p.principalRemaining != 0.014 - p.currentPrincipalPayment
  {
    Round2Def(0.0);
    Round2Def(0.004);
    Round2Def(0.01);
    assert 0.014 * (1.0 + 0.0) - 0.004 == 0.01;
  }

  /** Every entry's payment is the installment to within a cent. */
  lemma {:induction false} MonthlyPaymentNearInstallment(plan: Plan)
    ensures forall e :: e in plan.Ledger() ==> -0.01 <= e.monthlyPayment - plan.installment <= 0.01
  {
    var s := plan.Ledger();
    LedgerIndex(plan);
    forall e | e in s
      ensures -0.01 <= e.monthlyPayment - plan.installment <= 0.01
    {
      var i :| 0 <= i < |s| && s[i] == e;
      var p := plan.Step(i + 1);
      assert e.monthlyPayment == p.currentPrincipalPayment + p.currentInterestPayment;
    }
  }

  lemma MulNonNegative(x: real, y: real)
    requires 0.0 <= x && 0.0 <= y
    ensures 0.0 <= x * y
  {
  }

  lemma MulMonotoneLeft(x: real, y: real, m: real)
    requires x <= y && 0.0 <= m
    ensures x * m <= y * m
  {
    assert (y - x) * m >= 0.0;
  }

  /** With a non-negative rate, the interest on a positive balance rounds to a
      non-negative amount. */
  lemma InterestNonNegative(balance: real, mpr: real, payment: real)
    requires 0.0 <= mpr && 0.0 < balance
    ensures 0.0 <= Loan.MakePayment(balance, mpr, payment).currentInterestPayment
  {
    MulNonNegative(balance, mpr);
    Round2NonNegative(balance * mpr);
  }

  lemma InterestUnfold(plan: Plan, k: nat)
    ensures plan.InterestPaid(k + 1)
      == plan.InterestPaid(k) + Loan.MakePayment(plan.Balance(k), plan.mpr, plan.installment).currentInterestPayment
  {
  }

  /** A month paid on a positive balance at a non-negative rate does not lower
      the interest paid so far. */
  lemma InterestStepUp(plan: Plan, k: nat, b: real)
    requires b == plan.Balance(k) && 0.0 < b && 0.0 <= plan.mpr
    ensures plan.InterestPaid(k) <= plan.InterestPaid(k + 1)
  {
    InterestUnfold(plan, k);
    InterestNonNegative(b, plan.mpr, plan.installment);
  }

  /** With a non-negative rate, the interest paid over the months of the
      ledger never decreases. */
  lemma {:induction false} InterestPaidMonotone(plan: Plan, i: nat, j: nat)
    requires 0.0 <= plan.mpr
    requires i <= j <= plan.Months()
    ensures 0.0 <= plan.InterestPaid(i) <= plan.InterestPaid(j)
    decreases j
  {
    if 0 < j {
      var k := j - 1;
      InterestPaidMonotone(plan, if i < j then i else k, k);
      MonthsFromFacts(plan, 0);
      InterestStepUp(plan, k, plan.Balance(k));
    }
  }

  /** The balance and the interest total each entry reports. */
  lemma LedgerTotals(plan: Plan)
    ensures var s := plan.Ledger();
      forall i :: 0 <= i < |s| ==>
        s[i].remainingBalance == plan.Balance(i + 1) && s[i].aggregateInterestPaid == plan.InterestPaid(i + 1)
  {
    LedgerIndex(plan);
  }

  lemma InterestPaidOrdered(plan: Plan, n: nat)
    requires 0.0 <= plan.mpr && n == plan.Months()
    ensures forall i, j :: 1 <= i <= j <= n ==> 0.0 <= plan.InterestPaid(i) <= plan.InterestPaid(j)
  {
    forall i, j | 1 <= i <= j <= n
      ensures 0.0 <= plan.InterestPaid(i) <= plan.InterestPaid(j)
    {
      InterestPaidMonotone(plan, i, j);
    }
  }

  /** With a non-negative rate the aggregate interest never decreases. */
  lemma {:induction false} AggregateInterestNonDecreasing(plan: Plan)
    requires 0.0 <= plan.mpr
    ensures var s := plan.Ledger();
      forall i, j :: 0 <= i <= j < |s| ==> 0.0 <= s[i].aggregateInterestPaid <= s[j].aggregateInterestPaid
  {
    var s := plan.Ledger();
    LedgerTotals(plan);
    InterestPaidOrdered(plan, |s|);
    forall i, j | 0 <= i <= j < |s|
      ensures 0.0 <= s[i].aggregateInterestPaid <= s[j].aggregateInterestPaid
    {
      assert 1 <= i + 1 <= j + 1 <= |s|;
    }
  }

  /** A payment leaves the balance compounded for a month, less the payment,
      rounded once. */
  lemma PaymentBalance(balance: real, mpr: real, payment: real)
    ensures Loan.MakePayment(balance, mpr, payment).principalRemaining == Round2(balance * (1.0 + mpr) - payment)
  {
  }

  lemma BalanceUnfold(plan: Plan, k: nat)
    ensures plan.Balance(k + 1) == Loan.MakePayment(plan.Balance(k), plan.mpr, plan.installment).principalRemaining
  {
  }

  /** One rounded step from a whole-cent balance no larger than the amount does
      not raise it, when the payment covers the interest on the amount. */
  lemma RoundedStepDown(b: real, amount: real, mpr: real, payment: real, x: real)
    requires IsCents(b) && b <= amount
    requires 0.0 <= mpr && amount * mpr <= payment
    requires x == b * (1.0 + mpr) - payment
    ensures Round2(x) <= b
  {
    assert x <= b by {
      MulMonotoneLeft(b, amount, mpr);
      assert b * (1.0 + mpr) == b + b * mpr;
    }
    Round2Monotone(x, b);
    Round2OfCents(b);
  }

  /** From a whole-cent balance no larger than the amount, a payment that
      covers the interest on the amount does not raise the balance. */
  lemma PaymentDoesNotRaise(b: real, amount: real, mpr: real, payment: real)
    requires IsCents(b) && b <= amount
    requires 0.0 <= mpr && amount * mpr <= payment
    ensures Loan.MakePayment(b, mpr, payment).principalRemaining <= b
  {
    var x := b * (1.0 + mpr) - payment;
    PaymentBalance(b, mpr, payment);
    RoundedStepDown(b, amount, mpr, payment, x);
  }

  /** One month of the loop, under the same conditions, does not raise the balance. */
  lemma BalanceStepDown(plan: Plan, k: nat, b: real)
    requires b == plan.Balance(k)
    requires IsCents(b) && b <= plan.amount
    requires 0.0 <= plan.mpr && plan.amount * plan.mpr <= plan.installment
    ensures plan.Balance(k + 1) <= b
  {
    BalanceUnfold(plan, k);
    PaymentDoesNotRaise(b, plan.amount, plan.mpr, plan.installment);
  }

  lemma PaymentCents(b: real, mpr: real, payment: real)
    ensures IsCents(Loan.MakePayment(b, mpr, payment).principalRemaining)
  {
    PaymentInCents(b, mpr, payment);
  }

  /** Every balance after the first is a whole number of cents. */
  lemma BalanceInCents(plan: Plan, k: nat, b: real)
    requires 1 <= k && b == plan.Balance(k)
    ensures IsCents(b)
  {
    BalanceUnfold(plan, k - 1);
    PaymentCents(plan.Balance(k - 1), plan.mpr, plan.installment);
  }

  /** For a whole-cent amount, a non-negative rate and an installment that
      covers the first month's interest, the balance never rises: each balance
      is at most every earlier one. */
  lemma {:induction false} BalanceNonIncreasing(plan: Plan, j: nat)
    requires IsCents(plan.amount) && 0.0 <= plan.mpr && plan.amount * plan.mpr <= plan.installment
    ensures forall i :: 0 <= i <= j ==> plan.Balance(j) <= plan.Balance(i)
  {
    if j > 0 {
      var k := j - 1;
      BalanceNonIncreasing(plan, k);
      var b := plan.Balance(k);
      if k > 0 {
        BalanceInCents(plan, k, b);
      }
      assert plan.Balance(0) == plan.amount;
      BalanceStepDown(plan, k, b);
    }
  }

  /** Under the same conditions the principal paid never decreases. */
  lemma {:induction false} AggregatePrincipalNonDecreasing(plan: Plan)
    requires IsCents(plan.amount) && 0.0 <= plan.mpr && plan.amount * plan.mpr <= plan.installment
    ensures var s := plan.Ledger();
      forall i, j :: 0 <= i <= j < |s| ==> 0.0 <= s[i].aggregatePrincipalPaid <= s[j].aggregatePrincipalPaid
  {
    var s := plan.Ledger();
    LedgerShape(plan);
    LedgerTotals(plan);
    forall i, j | 0 <= i <= j < |s|
      ensures 0.0 <= s[i].aggregatePrincipalPaid <= s[j].aggregatePrincipalPaid
    {
      BalanceNonIncreasing(plan, j + 1);
      BalanceNonIncreasing(plan, i + 1);
      assert plan.Balance(j + 1) <= plan.Balance(i + 1) <= plan.Balance(0);
    }
  }

  /** The summary of a month is the ledger entry of that month; Python's
      negative indexing makes months `0, -1, ...` count back from the last one,
      so month 0 is the last month of the ledger. */
  lemma {:induction false} SummaryForMonth(plan: Plan, month: int)
    ensures var s := plan.Ledger();
      && (LookupMonth(s, month).None? <==> month > |s| || month <= -|s|)
      && (1 <= month <= |s| ==> LookupMonth(s, month) == Some(plan.EntryAt(month)))
      && (1 <= month <= |s| ==> LookupMonth(s, month).value.month == month)
      && (1 - |s| <= month <= 0 ==> LookupMonth(s, month).value.month == |s| + month)
      && (0 < |s| ==> LookupMonth(s, 0) == Some(s[|s| - 1]))
  {
    var s := plan.Ledger();
    LedgerShape(plan);
    LedgerIndex(plan);
  }

  /** The monthly payments of a run of entries, summed. */
  function SumPayments(s: seq<Entry>): real {
    if |s| == 0 then 0.0 else SumPayments(s[..|s| - 1]) + s[|s| - 1].monthlyPayment
  }

  /** One month of the accounting: the gap between the payments summed and the
      principal plus interest paid moves by less than a cent. */
  lemma AccountingStep(gap: real, b0: real, b1: real, principal: real, interest: real)
    requires -0.01 <= b1 - (b0 - principal) <= 0.01
    ensures var next := gap + (principal + interest) - ((b0 - b1) + interest);
      -0.01 <= next - gap <= 0.01
  {
  }

  /** The payments of the first `n` months sum to the principal paid plus the
      interest paid, to within a cent a month. */
  lemma {:induction false} Accounting(plan: Plan, n: nat)
    ensures -0.01 * (n as real)
      <= SumPayments(plan.Entries(n)) - ((plan.amount - plan.Balance(n)) + plan.InterestPaid(n))
      <= 0.01 * (n as real)
  {
    if n > 0 {
      Accounting(plan, n - 1);
      var s := plan.Entries(n);
      assert s[..n - 1] == plan.Entries(n - 1);
      assert s[n - 1] == plan.EntryAt(n);
      var p := Loan.MakePayment(plan.Balance(n - 1), plan.mpr, plan.installment);
      BalanceUnfold(plan, n - 1);
      InterestUnfold(plan, n - 1);
      var gap := SumPayments(plan.Entries(n - 1))
        - ((plan.amount - plan.Balance(n - 1)) + plan.InterestPaid(n - 1));
      AccountingStep(gap, plan.Balance(n - 1), plan.Balance(n),
        p.currentPrincipalPayment, p.currentInterestPayment);
    }
  }

  /** Over the whole ledger, the payments sum to the final entry's aggregate
      principal plus its aggregate interest, to within a cent a month. */
  lemma LedgerAccounting(plan: Plan)
    ensures var s := plan.Ledger();
      |s| > 0 ==>
        -0.01 * (|s| as real)
          <= SumPayments(s) - (s[|s| - 1].aggregatePrincipalPaid + s[|s| - 1].aggregateInterestPaid)
          <= 0.01 * (|s| as real)
  {
    var s := plan.Ledger();
    Accounting(plan, |s|);
    if |s| > 0 {
      LedgerIndex(plan);
      assert s[|s| - 1] == plan.EntryAt(|s|);
    }
  }
}
