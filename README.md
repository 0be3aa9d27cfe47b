# Loan calculation model

A Dafny model of the loan-calculation core of a Laravel loan controller
(`app/Http/Controllers/LoanController.php`, its private methods). Given a
principal, a nominal annual rate and a date range, the controller produces a
summary of the loan. There are four pieces:

- the **dispatcher** (`calculateLoanSummary`). It derives the daily rate
  `annualRate / 365`. It sends the `repayment` type to the amortizing
  calculation and rejects every other type with "Invalid repayment type".
- the **amortizing calculation** (`calculateRepaymentLoan`). It clamps the
  month count to at least one and prices a level monthly payment with the
  annuity formula P·r(1+r)^n / ((1+r)^n − 1), or P/n at a zero rate. It then
  reports the interest the daily walk accrues, and the principal plus that
  interest as the total paid.
- the **daily walk with monthly payments**
  (`calculateDailyInterestWithMonthlyPayments`). It first lists the monthly
  due dates. Then it walks day by day while the date is not after the end
  and more than a cent is owed. Each day it accrues `balance · dailyRate`.
  On a due date it sets the balance to `max(0, balance − payment + interest)`.
- the **fixed-daily-principal ledger** (`calculateDailyPaymentStructure`).
  It splits the principal evenly over every day of the term and records one
  ledger entry per day on the declining balance. It counts the calendar
  months by stepping a month at a time, and averages the total repaid over
  them. Nothing in the controller calls it; it is modelled on its own.

Files:

- `calendar.dfy` (module `Calendar`): dates as day numbers, the date
  library's month operations as a `Calendar` value, and the month-stepping
  sequences that both the due-date loop and the month-count loop visit.
- `annuity.dfy` (module `Annuity`): the annuity payment and the
  month-by-month amortization it is designed to retire.
- `daily_accrual.dfy` (module `DailyAccrual`): the daily walk.
  - `Walk`, a recursive specification of the walk, and `TrueInterest`,
    the interest the walk accrues.
  - `CalculateDailyInterestWithMonthlyPayments`, the walker's two loops as a
    method, proved to compute exactly `TrueInterest`.
- `daily_ledger.dfy` (module `DailyLedger`): the ledger.
  - `Rows`, the closed-form ledger.
  - `CalculateDailyPaymentStructure`, the ledger as a method, proved to
    build exactly `Rows`. Its month-count loop is the separate method
    `CountMonths`, which it calls.
  - Lemmas for the ledger's sums, its interest in closed form, and the
    repository's worked example.
- `loan_controller.dfy` (module `LoanController`): the dispatcher, the
  amortizing calculation and the request validation as a predicate.

Representation choices:

- **Prices are `real`.** PHP floats become exact `real`s, and `pow(1 + r, n)`
  becomes the whole-number power `Annuity.Pow`.
- **Dates are `int` day numbers.** "Next day" is `+ 1`, and the day count
  between two dates is their difference.
- **Month operations are parameters.** Adding a calendar month and counting
  whole months between dates are passed in as a `Calendar`. The only
  assumption is that adding a month moves strictly forward. Monotonicity is
  not assumed: with month-end overflow, 31 January steps past the date
  1 February steps to.
- **Functions use the walk's specification.** The dispatcher and the
  amortizing calculation are pure in the source, so they are functions. A
  Dafny function cannot call a method, so they use `TrueInterest`, the
  specification the walker method is proved to meet.

The repository's test (`tests/Feature/Controllers/LoanControllerTest.php:9-24`)
expects an interest of 2268.49 for 100000 at 9% from 1 June to 30 November
2025.

- **The figure is the ledger's.** In exact arithmetic the ledger's interest
  over those 183 days is `dailyRate · P · 184 / 2 = 828000 / 365 ≈ 2268.49`
  (`DailyLedger.WorkedExampleInterest`).
- **The dispatched path differs.** In this revision of the code the
  `repayment` type is sent to the amortizing calculation, whose interest
  comes from the daily walk with whole-month payments, not from the ledger.
  The code is what is modelled.
- **Ledger outputs follow the code.** The ledger returns the daily
  principal, the total interest, the average monthly payment, the list of
  day entries and the day count, and nothing else
  (`LoanController.php:217-223`).

## Model

The specification functions `Calendar.DueDates`, `DailyAccrual.Step`,
`DailyAccrual.Walk`, `DailyLedger.Row` and `DailyLedger.Rows` have no rows of
their own. The rows of the methods proved equal to them cover them, and so
do the rows of the lemmas about them.

| member | source | states |
|---|---|---|
| LoanController.CalculateLoanSummary | app/Http/Controllers/LoanController.php:107-116 | a summary is produced exactly when the type is `repayment`; every other type gives the "Invalid repayment type" error; the summary is the amortizing calculation at daily rate `annualRate / 365`, and its total paid is principal plus interest with the end date as final payment |
| LoanController.ValidatedRequestSummary | app/Http/Controllers/LoanController.php:75-80 | for a validated request, `interest-only` and `interest-retained` are still rejected; a `repayment` request gets a positive level payment that retires the loan, non-negative interest and a total paid of at least the principal |
| LoanController.AnnuityMonths | app/Http/Controllers/LoanController.php:123-126 | the annuity's month count is at least one; it is the whole months of the term when there is at least one, and one otherwise |
| LoanController.CalculateRepaymentLoan | app/Http/Controllers/LoanController.php:121-147 | the payment is the annuity payment over the clamped months, and at a zero rate it splits the principal evenly over them; the interest is the daily walk's true interest at that payment; total paid = principal + interest and is at least the principal when the rate is non-negative; the final payment date is the end date; at a zero rate nothing beyond the principal is paid |
| LoanController.RepaymentLoanRetiresPrincipal | app/Http/Controllers/LoanController.php:128-136 | paying the calculated level payment at the end of each of the clamped months, after a month's interest, leaves exactly nothing owing |
| LoanController.PaymentCoversDailyInterest | app/Http/Controllers/LoanController.php:128-136 | for a non-negative loan and annual rate, the level payment is at least a day's interest on the whole loan at the daily rate `annualRate / 365` |
| LoanController.RepaymentWalkBalanceNeverRises | app/Http/Controllers/LoanController.php:132-170 | at a non-negative rate, the daily walk fed the level annuity payment (the payment `CalculateRepaymentLoan` returns) covers a day's interest on the opening balance, the condition `StepKeepsBalanceDown` keeps day by day, and the walk ends owing no more than the principal |
| Annuity.AnnuityPayment | app/Http/Controllers/LoanController.php:128-136 | at a positive rate the payment satisfies payment·((1+r)^n − 1) = P·r·(1+r)^n; otherwise payment·n = P |
| Annuity.AnnuityRetiresLoan | app/Http/Controllers/LoanController.php:128-136 | at any non-negative monthly rate the annuity payment amortizes the loan to exactly zero after n months |
| Annuity.PositiveRateRetiresLoan | app/Http/Controllers/LoanController.php:130-132 | any payment satisfying the annuity equation at a positive rate retires the loan in n months |
| Annuity.AnnuityPaymentPositive | app/Http/Controllers/LoanController.php:130-136 | the payment is positive for a positive loan at a non-negative rate |
| Annuity.AnnuityPaymentCoversInterest | app/Http/Controllers/LoanController.php:128-136 | for a non-negative loan at a non-negative monthly rate, the level payment is at least one month's interest on the whole loan |
| Annuity.AmortizedBalanceClosedForm | app/Http/Controllers/LoanController.php:128-136 | the balance after k months of interest-then-payment is P·(1+r)^k − payment·(1 + (1+r) + … + (1+r)^(k−1)) |
| Calendar.MonthStepsShape | app/Http/Controllers/LoanController.php:159-162 | stepping a month at a time from a date visits it first, then dates that rise strictly and stay within [from, end], and stops at the first step past the end |
| Calendar.MonthStepsAreMonthly | app/Http/Controllers/LoanController.php:159-162 | each visited date is one calendar month after the previous one |
| Calendar.DueDatesShape | app/Http/Controllers/LoanController.php:158-163 | the due dates rise strictly, the first is one month after the start, all are after the start and not after the end, and there are none exactly when the term is shorter than a month |
| Calendar.MonthCountIsDueDatesPlusOne | app/Http/Controllers/LoanController.php:209-214 | for a non-empty term the month count visits the start and then exactly the due dates, so it counts one more than there are due dates |
| DailyAccrual.CalculateDailyInterestWithMonthlyPayments | app/Http/Controllers/LoanController.php:152-177 | the method's due-date loop and daily loop return exactly the true interest of the walk; it is non-negative for a non-negative loan and rate, and zero at a zero rate |
| DailyAccrual.TrueInterest | app/Http/Controllers/LoanController.php:165-176 | the walk's interest is non-negative at a non-negative rate on a non-negative loan, and exactly zero at a zero rate |
| DailyAccrual.WalkStops | app/Http/Controllers/LoanController.php:165 | the walk stops only past the end date or with at most a cent owed, never goes back in time, and never runs past the day after the end |
| DailyAccrual.WalkWithinTerm | app/Http/Controllers/LoanController.php:165-174 | from the start date the walk takes at most (end − start) + 1 daily steps; if it stops before the end, the balance is at most a cent |
| DailyAccrual.WalkKeepsSigns | app/Http/Controllers/LoanController.php:166-171 | a non-negative balance stays non-negative throughout; at a non-negative rate the accrued interest never decreases |
| DailyAccrual.StepKeepsBalanceNonNegative | app/Http/Controllers/LoanController.php:169-173 | one day, whatever the payment, leaves a non-negative balance and moves to the next day; at a non-negative rate the accrued interest does not fall |
| DailyAccrual.WalkAtZeroRate | app/Http/Controllers/LoanController.php:166-167 | at a zero daily rate the walk accrues no interest |
| DailyAccrual.SettledAccruesNothing | app/Http/Controllers/LoanController.php:165 | once a cent or less is owed, or the end has passed, the walk changes nothing and no further interest accrues |
| DailyAccrual.WalkBalanceNonIncreasing | app/Http/Controllers/LoanController.php:165-174 | when the payment covers a day's interest on the opening balance, the walk ends owing no more than it started with |
| DailyAccrual.StepKeepsBalanceDown | app/Http/Controllers/LoanController.php:166-173 | when the payment covers a day's interest on the balance, one day does not raise the balance and the payment still covers a day's interest on the new balance, so no day of the walk raises the balance |
| DailyLedger.CountMonths | app/Http/Controllers/LoanController.php:209-214 | the month count is exactly the number of month steps from the start that are not after the end, and it is at least one for a non-empty term |
| DailyLedger.CalculateDailyPaymentStructure | app/Http/Controllers/LoanController.php:182-224 | total days = (end − start) + 1; the daily principal is the loan over the days; the ledger is exactly the closed-form rows; the total interest is the sum of the entries' interest; at least one month is counted, and the average is (interest + principal) over the month count |
| DailyLedger.LedgerEntries | app/Http/Controllers/LoanController.php:192-206 | entry i has day i + 1 and date start + i; its opening balance is P − i·(P/days); its principal payment is P/days; its interest is the opening balance times the daily rate; its total payment is principal plus interest |
| DailyLedger.RowsAt | app/Http/Controllers/LoanController.php:192-206 | every entry of a ledger prefix is the closed-form row for its position |
| DailyLedger.RowsSplit | app/Http/Controllers/LoanController.php:195-202 | a ledger of k days is the ledger of k − 1 days with row k − 1 appended |
| DailyLedger.RowsInterestSum | app/Http/Controllers/LoanController.php:193-203 | the interest of the first k entries is the daily rate times the sum of their opening balances |
| DailyLedger.LedgerInterestClosedForm | app/Http/Controllers/LoanController.php:192-207 | the total interest of the ledger is dailyRate · P · (days + 1) / 2 |
| DailyLedger.RowsPrincipalSum | app/Http/Controllers/LoanController.php:200-204 | the first k entries repay k daily principal payments |
| DailyLedger.LedgerRepaysPrincipal | app/Http/Controllers/LoanController.php:184-205 | the principal payments of the whole ledger add up to the loan, and the last day's payment leaves nothing owing |
| DailyLedger.LedgerBalanceDeclines | app/Http/Controllers/LoanController.php:198-204 | for a non-negative loan the opening balances never rise from one day to a later one, and none is below a day's principal |
| DailyLedger.BalanceSumClosedForm | app/Http/Controllers/LoanController.php:198-204 | the first k opening balances add up to k·P − p·(0 + 1 + … + (k − 1)) |
| DailyLedger.WorkedExampleInterest | tests/Feature/Controllers/LoanControllerTest.php:9-24 | 100000 at 9% over 183 days gives ledger interest 828000/365, which rounds to 2268.49 |
| DailyLedger.WorkedExampleAverage | app/Http/Controllers/LoanController.php:209-215 | with the month steps of 1 June to 30 November 2025, the month count is six, and the model's average (its ledger interest plus the principal, over its month count) rounds to 17044.75 |

## Left out

- `calculate()` (request validation, date parsing, the JSON response with status 201) is framework I/O. Its validation rules appear only as `LoanController.LoanRequest.Validated`.
- The empty resource-controller actions (`index`, `create`, `store`, `show`, `edit`, `update`, `destroy`) have no behaviour. `routes/api.php` is only route registration.
- The date library's calendar semantics are not modelled. Month-end overflow in adding a month, the whole-month difference and `Y-m-d` formatting are parameters (`Calendar.Calendar`) or left out. Dates compared as formatted strings are compared as day numbers.
- Floating-point rounding, IEEE drift and the floating-point `pow` are not modelled: prices are exact reals, and `round(…, 2)` appears only as bounds in the worked-example lemmas.
- The `monthly_payment` figure of 16765.33 expected by the test is not modelled: it matches neither calculation in this revision of the code.
- The exception thrown for an invalid type becomes an `Err` value carrying the same message.
- PHP's integer-or-float division result type is not modelled. `loanAmount / months` and `loanAmount / totalDays` give the same value as real division.
- DailyLedger.CalculateDailyPaymentStructure: requires start ≤ end, as the request validation guarantees. It does not model the absolute day difference, or the division by a zero month count, that a reversed range would give.
- DailyLedger.CalculateDailyPaymentStructure: states the ledger by the `Rows` specification. The closed-form interest, the repaid principal and the per-entry facts are the lemmas about `Rows` listed above, not clauses of the method.
- LoanController.CalculateRepaymentLoan: uses `TrueInterest`, the specification the walker method is proved to meet, rather than calling the walker method.
