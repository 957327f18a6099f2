/** What the installment formula promises in exact arithmetic, and what it
    guarantees the rounded ledger of a well-formed loan. */
module Amortization {
  import opened Money
  import opened Loans
  import opened LoanProperties

  lemma {:induction false} PowOne(n: nat)
    ensures Pow(1.0, n) == 1.0
  {
    if n > 0 {
      PowOne(n - 1);
    }
  }

  /** For a positive rate and term, `(1 + mpr) ** -loanTerm` lies strictly
      between zero and one. */
  lemma DiscountBelowOne(mpr: real, loanTerm: int)
    requires 0.0 < mpr && 0 < loanTerm
    ensures Discount(mpr, loanTerm).Ok?
    ensures 0.0 < Discount(mpr, loanTerm).value < 1.0
  {
    PowAboveOne(1.0 + mpr, loanTerm);
    ReciprocalBelowOne(Discount(mpr, loanTerm).value, Pow(1.0 + mpr, loanTerm));
  }

  lemma ReciprocalBelowOne(d: real, q: real)
    requires 1.0 < q && d * q == 1.0
    ensures 0.0 < d < 1.0
  {
    if d >= 1.0 {
      MulMonotoneLeft(1.0, d, q);
      assert false;
    } else if d <= 0.0 {
      MulMonotoneLeft(d, 0.0, q);
      assert false;
    }
  }

  /** For a non-negative rate the schedule computation raises
      `ZeroDivisionError` exactly when the rate or the term is zero. */
  lemma ScheduleFails(amount: real, annualInterestRate: real, loanTerm: int)
    requires 0.0 <= annualInterestRate
    ensures Schedule(amount, annualInterestRate, loanTerm).Err?
      <==> annualInterestRate == 0.0 || loanTerm == 0
  {
    var mpr := MonthlyRate(annualInterestRate);
    var d := Discount(mpr, loanTerm);
    if annualInterestRate == 0.0 {
      assert mpr == 0.0;
      if loanTerm > 0 {
        PowOne(loanTerm);
        assert d.value * 1.0 == 1.0;
      } else {
        PowOne(-loanTerm);
      }
    } else if loanTerm > 0 {
      DiscountBelowOne(mpr, loanTerm);
    } else if loanTerm < 0 {
      PowAboveOne(1.0 + mpr, -loanTerm);
    }
  }

  /** For a positive rate and term, the installment is at least the first
      month's interest, and more than it on a positive amount. */
  lemma InstallmentCoversInterest(amount: real, mpr: real, loanTerm: int)
    requires 0.0 < mpr && 0 < loanTerm && 0.0 <= amount
    ensures Installment(amount, mpr, loanTerm).Ok?
    ensures amount * mpr <= Installment(amount, mpr, loanTerm).value
    ensures 0.0 < amount ==> amount * mpr < Installment(amount, mpr, loanTerm).value
  {
    DiscountBelowOne(mpr, loanTerm);
    var d := Discount(mpr, loanTerm).value;
    var p := Installment(amount, mpr, loanTerm).value;
    var i := amount * mpr;
    MulNonNegative(amount, mpr);
    assert p * (1.0 - d) == i;
    CoverStep(p, d, i);
  }

  lemma CoverStep(p: real, d: real, i: real)
    requires 0.0 < d < 1.0 && 0.0 <= i && p * (1.0 - d) == i
    ensures i <= p && (0.0 < i ==> i < p)
  {
    assert p - i == p * d;
    if p < 0.0 {
      MulNegPos(p, 1.0 - d);
      assert false;
    }
    MulNonNegative(p, d);
    if 0.0 < i && p == 0.0 {
      assert false;
    }
    if 0.0 < p {
      assert 0.0 < p * d;
    }
  }

  lemma MulNegPos(x: real, m: real)
    requires x < 0.0 && 0.0 < m
    ensures x * m < 0.0
  {
    assert 0.0 < (-x) * m;
  }

  /** One unrounded step of the closed form. */
  lemma ClosedFormStep(e: real, m: real, a: real, p: real, q: real)
    requires e * m == a * m * q - p * (q - 1.0)
    ensures (e - (p - e * m)) * m == a * m * ((1.0 + m) * q) - p * ((1.0 + m) * q - 1.0)
  {
    calc {
      (e - (p - e * m)) * m;
    ==
      e * m * (1.0 + m) - p * m;
    ==
      (a * m * q - p * (q - 1.0)) * (1.0 + m) - p * m;
    ==
      a * m * ((1.0 + m) * q) - p * ((1.0 + m) * q - 1.0);
    }
  }

  /** Without rounding, the balance `e` after `k` payments has the annuity
      closed form `e * mpr == amount * mpr * q - installment * (q - 1)` with
      `q == (1 + mpr) ** k`. */
  lemma {:induction false} ExactBalanceClosedForm(plan: Plan, k: nat, e: real, q: real)
    requires e == plan.ExactBalance(k) && q == Pow(1.0 + plan.mpr, k)
    ensures e * plan.mpr == plan.amount * plan.mpr * q - plan.installment * (q - 1.0)
  {
    if k > 0 {
      var e0, q0 := plan.ExactBalance(k - 1), Pow(1.0 + plan.mpr, k - 1);
      ExactBalanceClosedForm(plan, k - 1, e0, q0);
      assert plan.ExactBalance(k) == e0 - (plan.installment - e0 * plan.mpr);
      assert q == (1.0 + plan.mpr) * q0;
      ClosedFormStep(e0, plan.mpr, plan.amount, plan.installment, q0);
    }
  }

  lemma AmortizedToZero(e: real, m: real, a: real, p: real, d: real, q: real)
    requires m != 0.0
    requires e * m == a * m * q - p * (q - 1.0)
    requires p * (1.0 - d) == a * m && d * q == 1.0
    ensures e == 0.0
  {
    assert p * (q - 1.0) == p * (1.0 - d) * q;
    assert e * m == 0.0;
  }

  /** An installment that solves the annuity equation for the plan's term leaves
      nothing of the exact balance at the end of the term. */
  lemma ExactBalanceAtTerm(plan: Plan, d: real, q: real, e: real)
    requires plan.mpr != 0.0 && 0 <= plan.term && q == Pow(1.0 + plan.mpr, plan.term)
    requires plan.installment * (1.0 - d) == plan.amount * plan.mpr && d * q == 1.0
    requires e == plan.ExactBalance(plan.term)
    ensures e == 0.0
  {
    ExactBalanceClosedForm(plan, plan.term, e, q);
    AmortizedToZero(e, plan.mpr, plan.amount, plan.installment, d, q);
  }

  /** For a positive rate and term, the installment leaves an exact (unrounded)
      balance of 0 after `loanTerm` months. */
  lemma FullyAmortizing(amount: real, annualInterestRate: real, loanTerm: int)
    requires 0.0 < annualInterestRate && 0 < loanTerm
    ensures Installment(amount, MonthlyRate(annualInterestRate), loanTerm).Ok?
    ensures Plan(amount, MonthlyRate(annualInterestRate),
                 Installment(amount, MonthlyRate(annualInterestRate), loanTerm).value, loanTerm).ExactBalance(loanTerm) == 0.0
  {
    var mpr := MonthlyRate(annualInterestRate);
    DiscountBelowOne(mpr, loanTerm);
    var p := Installment(amount, mpr, loanTerm).value;
    var plan := Plan(amount, mpr, p, loanTerm);
    ExactBalanceAtTerm(plan, Discount(mpr, loanTerm).value, Pow(1.0 + mpr, loanTerm), plan.ExactBalance(loanTerm));
  }

  /** For a whole-cent amount, a positive rate and a positive term, the
      reported balance never rises and the principal paid never falls. */
  lemma ScheduleMonotone(amount: real, annualInterestRate: real, loanTerm: int)
    requires IsCents(amount) && 0.0 <= amount && 0.0 < annualInterestRate && 0 < loanTerm
    ensures var s := Schedule(amount, annualInterestRate, loanTerm);
      && s.Ok?
      && (forall i, j :: 0 <= i <= j < |s.value| ==> s.value[j].remainingBalance <= s.value[i].remainingBalance)
      && (forall i, j :: 0 <= i <= j < |s.value| ==>
            0.0 <= s.value[i].aggregatePrincipalPaid <= s.value[j].aggregatePrincipalPaid)
  {
    var mpr := MonthlyRate(annualInterestRate);
    InstallmentCoversInterest(amount, mpr, loanTerm);
    var plan := Plan(amount, mpr, Installment(amount, mpr, loanTerm).value, loanTerm);
    var s := plan.Ledger();
    LedgerTotals(plan);
    AggregatePrincipalNonDecreasing(plan);
    forall i, j | 0 <= i <= j < |s|
      ensures s[j].remainingBalance <= s[i].remainingBalance
    {
      BalanceNonIncreasing(plan, j + 1);
    }
  }
}
