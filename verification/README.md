# Loan amortization service — a Dafny model

The service keeps loans and builds their amortization schedules. A loan has an
amount, an annual interest rate in percent and a term in months. Its schedule is
a ledger with one entry per month. Each entry holds the month number, the
remaining balance, the payment, the principal paid so far and the interest paid
so far. The ledger comes from a loop that repeats one payment step, rounding each
portion to the cent as it goes. The first schedule computed is cached on the
loan.

This project models that core:

- the payment step `make_payment`;
- the schedule loop with its cache, `get_loan_schedule`;
- the month lookup `get_loan_summary_for_month`;
- `transfer_to_user`;
- the request check `validate_loan_creation_request`.

`main.py` and `loans.py` hold the same `Loan` class at shifted lines. It is
modelled once, and the table below cites `main.py`. The `loans.py` copies are
line for line the same:

| operation | main.py | loans.py |
|---|---|---|
| `make_payment` | 37-48 | 33-44 |
| `get_loan_schedule` | 50-78 | 46-74 |
| the loop inside it | 64-75 | 60-71 |
| `get_loan_summary_for_month` | 80-90 | 76-86 |
| `transfer_to_user` | 92-93 | 88-89 |

Files:

- `money.dfy` (module `Money`): Python's `round(x, 2)` on exact reals, and
  integer powers.
- `loans.dfy` (module `Loans`): the data model. Also `Plan`, a functional
  specification of the loop, and the `Loan` class with its methods.
- `loan_properties.dfy` (module `LoanProperties`): what the loop guarantees about
  the ledger.
- `amortization.dfy` (module `Amortization`): when the installment formula
  raises. It also proves that the formula pays the loan off exactly when nothing
  is rounded, and that the ledger is monotone for well-formed loans.
- `validation.dfy` (module `Validation`): the request check and what passing it
  guarantees.

Modelling decisions:

- **Money.** Amounts are exact `real`s. `Round2` is the whole number of cents
  nearest its argument, with a tie going to the even cent. This is what
  Python's `round(x, 2)` does to the exact value it is given.
- **The loop.** The loop is imperative: `Loan.ComputeSchedule` runs the `while`
  loop over the same variables as the source. `Loan.GetLoanSchedule` adds the
  cache check and the cache write. The loop is proved equal to `Plan.Ledger()`,
  a recursive definition of the same ledger. The properties are proved about
  that definition.
- **Errors.** The one exception modelled, `ZeroDivisionError`, is the `Err`
  case of a `Result`.

The model follows these edge cases of the code in `main.py`:

- A term of 0 or a rate of 0 raises `ZeroDivisionError`, because the
  denominator `1 - (1 + mpr) ** -term` is 0 (main.py:59). Nothing before that
  line checks the rate or the term. A rate of −1200 % with a positive term also
  raises: Python refuses `0.0 ** -n`.
- A negative term does not raise (unless the denominator is 0). The loop then
  does not run and the schedule is empty.
- The loop stops after the first month whose balance is not positive
  (main.py:64), so the ledger can be shorter than the term. It never runs longer
  than the term.
- Month 0 returns the last entry, because `month - 1` is then the Python index
  −1 (main.py:88). Months down to `1 - len` count back from the end.
- The cache is checked by truthiness (main.py:51), so an empty schedule is never
  cached and is recomputed on every call.

## Model

| member | source | states |
|---|---|---|
| Money.Round2Bounds | main.py:45-47 | `round(x, 2)` is a whole number of cents within half a cent of `x` |
| Money.Round2Monotone | main.py:45-47 | rounding to the cent preserves order |
| Money.Round2OfCents | main.py:45-47 | a whole number of cents is left unchanged by rounding |
| Money.Round2Idempotent | main.py:45-47 | rounding twice gives the same as rounding once |
| Loans.MonthlyRate | main.py:54-55 | the monthly rate is the annual percentage divided by 1200 |
| Loans.Discount | main.py:59 | `(1 + mpr) ** -term` raises exactly when the term is positive and `1 + mpr` is 0; otherwise it is the reciprocal of the power for a positive term and the power itself otherwise |
| Loans.Installment | main.py:59 | the installment raises exactly when the power raises or the denominator is 0; otherwise installment × (1 − discount) equals amount × mpr |
| Loans.LookupMonth | main.py:87-90 | Python indexing on `month - 1`: an entry exactly when `1 - len <= month <= len`; entry `month - 1` for positive months, entry `len + month - 1` otherwise; `None` in place of `IndexError` |
| Loans.Plan.EntriesIndex | main.py:68-75 | entry `i` of the first `n` months is the entry of month `i + 1` |
| Loans.Loan.constructor | main.py:18-25 | a new loan holds the given fields and an empty cache |
| Loans.Loan.MakePayment | main.py:37-48 | the new balance is the balance compounded for a month, less the payment, rounded once; the rounded portions sum to the payment within a cent; the new balance is within a cent of the balance less the rounded principal |
| Loans.Loan.ComputeSchedule | main.py:54-75 | the loop returns the error of the installment formula, or exactly the ledger `Plan.Ledger()` of the loan's terms |
| Loans.Loan.GetLoanSchedule | main.py:50-78 | returns the schedule of the loan's terms; a non-empty cache is returned unchanged; a computed schedule is cached; an error leaves the cache as it was |
| Loans.Loan.GetLoanSummaryForMonth | main.py:80-90 | the error of the schedule, or the Python-indexed lookup of `month` in it; a non-empty cache is kept; an empty cache receives the computed schedule, as the call to `get_loan_schedule` (main.py:86, 77) writes it; an error leaves the cache as it was |
| Loans.Loan.TransferToUser | main.py:92-93 | sets the owner; its frame leaves every other field and the cache unchanged |
| LoanProperties.MonthsFromFacts | main.py:64 | the loop runs while the balance is positive and months remain; it stops at the first balance that is not positive or at the end of the term |
| LoanProperties.LedgerIndex | main.py:68-75 | ledger entry `i` is the entry of month `i + 1` |
| LoanProperties.LedgerShape | main.py:56-75 | entry `i` has month `i + 1`; at most `term` entries; empty exactly when amount ≤ 0 or term ≤ 0; every entry but the last has a positive balance; a ledger shorter than the term ends on a balance that is not positive; aggregate principal is amount − balance |
| LoanProperties.LedgerSteps | main.py:65-75 | each entry is one payment step from the previous entry's balance and interest total: balance carried over, payment = rounded principal + rounded interest, interest total grows by the rounded interest |
| LoanProperties.PaymentInCents | main.py:39-48 | all three portions are whole cents; interest within half a cent of balance × mpr; principal within half a cent of payment − balance × mpr |
| LoanProperties.IndependentRounding | main.py:43-48 | the portions are rounded independently: a balance of 0.014 paying 0.004 at rate 0 reports a principal portion of 0 but leaves a balance of 0.01, which is not the balance less the reported principal |
| LoanProperties.MonthlyPaymentNearInstallment | main.py:72 | each entry's payment is the installment to within a cent |
| LoanProperties.InterestNonNegative | main.py:39 | at a non-negative rate the rounded interest on a positive balance is not negative |
| LoanProperties.InterestStepUp | main.py:61-68 | a month paid on a positive balance at a non-negative rate does not lower the interest total |
| LoanProperties.InterestPaidMonotone | main.py:61-68 | at a non-negative rate the interest total never decreases over the months the loop runs |
| LoanProperties.LedgerTotals | main.py:66-74 | each entry reports the balance and the interest total after its month |
| LoanProperties.AggregateInterestNonDecreasing | main.py:68-74 | at a non-negative rate the entries' aggregate interest is non-negative and non-decreasing |
| LoanProperties.RoundedStepDown | main.py:37-48 | from a whole-cent balance no larger than the amount, a payment covering the amount's interest rounds to no more than the balance |
| LoanProperties.BalanceStepDown | main.py:64-66 | under those conditions one month does not raise the balance |
| LoanProperties.BalanceInCents | main.py:65-66 | every balance after the first is a whole number of cents |
| LoanProperties.BalanceNonIncreasing | main.py:64-66 | for a whole-cent amount, a non-negative rate and an installment covering the first month's interest, no balance exceeds an earlier one |
| LoanProperties.AggregatePrincipalNonDecreasing | main.py:73 | under the same conditions the aggregate principal is non-negative and non-decreasing |
| LoanProperties.SummaryForMonth | main.py:80-90 | the lookup is `None` exactly for months above the length or at or below minus the length; month `m` in 1..len gives the entry of month `m`; months in `1 - len`..0 give the entry numbered `len + m`; month 0 gives the last entry |
| LoanProperties.Accounting | main.py:64-75 | the monthly payments of the first `n` months sum to the principal paid (amount − balance) plus the rounded interest paid, to within a cent a month |
| LoanProperties.LedgerAccounting | main.py:64-75 | over the whole ledger, the payments sum to the last entry's aggregate principal plus its aggregate interest, to within a cent per entry |
| Amortization.DiscountBelowOne | main.py:59 | for a positive rate and term, `(1 + mpr) ** -term` lies strictly between 0 and 1 |
| Amortization.ScheduleFails | main.py:59 | for a non-negative rate, the schedule raises `ZeroDivisionError` exactly when the rate or the term is 0 |
| Amortization.InstallmentCoversInterest | main.py:59 | for a positive rate and term, the installment is defined and at least the first month's interest, and more than it on a positive amount |
| Amortization.ExactBalanceClosedForm | main.py:59-66 | without rounding, the balance after `k` months has the annuity closed form |
| Amortization.ExactBalanceAtTerm | main.py:59-66 | an installment solving the annuity equation leaves an exact balance of 0 at the end of the term |
| Amortization.FullyAmortizing | main.py:59-66 | for a positive rate and term, the installment formula leaves an exact (unrounded) balance of 0 after `term` months |
| Amortization.ScheduleMonotone | main.py:56-75 | for a whole-cent amount, a positive rate and a positive term, the schedule is defined; its balances never rise and its aggregate principal never falls |
| Validation.ValidateLoanCreationRequest | main.py:125-139 | the first failing check in the order user, amount, rate, term gives its message; `None` exactly when all four pass |
| Validation.AcceptedRequestHasSchedule | main.py:125-139 | a request that passes validation has a computable schedule of between 1 and `term` months |

## Left out

- FastAPI routes, pydantic models and HTTP exceptions (main.py:142-224): transport glue.
- The in-memory `users` and `loans` dictionaries, `create_user`, UUID
  generation and `create_loan_from_loan_creation_request`. Validation takes the
  registry as a set of ids.
- The parsing of a request's user id string into a UUID. A string that does not
  parse raises `ValueError` in the source; the model's request holds an
  already-parsed id.
- `get_loan_metadata`: it only copies fields into a dictionary.
- `validate_loan_creation_request` in `loans.py` (loans.py:102-116): it refers
  to a `users` name that file never defines, so it cannot run.
- Floating point. Amounts are exact reals and rounding is exact. Binary-float
  effects are not modelled, such as the `963.0699999999997` in the test ledger,
  or a float `round` landing on the other side of a half-cent tie.
  `OverflowError` from a huge power is not modelled either. Nor is a positive
  rate so small (below about 1.3e-13 %) that `1 + mpr` rounds to `1.0` and the
  source raises `ZeroDivisionError`. So `Amortization.ScheduleFails`' "exactly
  when the rate or the term is 0" holds for exact reals only.
- The ten-month test ledger for 10000 at 10 % (tests.py:12-33) is not proved as
  a concrete value. Computing it would mean evaluating ten rounded steps over
  the exact installment, which is a large rational number.
- Aliasing. `get_loan_schedule` returns the cached list itself, so a caller that
  mutates it changes the cache. The model returns an immutable sequence.
- The async test harness (main.py:227-263, tests.py:6-44). Lines 6-11 create
  the user and the loan through `create_user` and `create_loan`, which are left
  out above; lines 12-33 are the ten-month test ledger above.
- No bound is proved on how far the rounded final balance can drift from 0;
  the model proves only that the exact balance reaches 0
  (`Amortization.FullyAmortizing`). So the payments are proved to sum to the
  principal paid plus the interest paid (`LoanProperties.LedgerAccounting`),
  but not that the principal paid is close to the original amount.
