/**
 * The fixed-daily-principal repayment structure: the principal is split
 * evenly over every day of the term, interest accrues daily on the declining
 * balance, and the calculation reports the full day-by-day ledger, the total
 * interest and an average monthly payment over the calendar months of the
 * term.
 */
module DailyLedger {
  import opened Calendar

  /** One day of the ledger. `day` counts from 1; `date` is the calendar day. */
  datatype DayRecord = DayRecord(
    day: int,
    date: Date,
    balanceStart: real,
    dailyInterest: real,
    principalPayment: real,
    totalPayment: real)

  datatype LedgerSummary = LedgerSummary(
    dailyPrincipalPayment: real,
    totalInterest: real,
    averageMonthlyPayment: real,
    dailyPayments: seq<DayRecord>,
    totalDays: int)

  /** `n` payments of `x` added up: x + x + ... + x. */
  function Scale(x: real, n: nat): real
  {
    if n == 0 then 0.0 else Scale(x, n - 1) + x
  }

  lemma {:induction false} ScaleIsProduct(x: real, n: nat)
    ensures Scale(x, n) == n as real * x
  {
    if n > 0 {
      ScaleIsProduct(x, n - 1);
      assert (n - 1) as real * x + x == n as real * x;
    }
  }

  lemma {:induction false} ScaleAdd(x: real, m: nat, n: nat)
    ensures Scale(x, m + n) == Scale(x, m) + Scale(x, n)
  {
    if n > 0 {
      ScaleAdd(x, m, n - 1);
      assert m + n == (m + (n - 1)) + 1;
    }
  }

  lemma {:induction false} ScaleNonNegative(x: real, n: nat)
    requires x >= 0.0
    ensures Scale(x, n) >= 0.0
  {
    if n > 0 {
      ScaleNonNegative(x, n - 1);
    }
  }

  /** What is still owed on day `i` (0-based) of a loan of `amount` repaid
      by `principal` a day: `i` payments have come off. */
  function Owed(amount: real, principal: real, i: nat): real
  {
    amount - Scale(principal, i)
  }

  /** One more day's payment leaves what is owed a day later. */
  lemma OwedStep(amount: real, principal: real, i: nat)
    ensures Owed(amount, principal, i) - principal == Owed(amount, principal, i + 1)
  {
    assert Scale(principal, i + 1) == Scale(principal, i) + principal;
  }

  /** The interest one day accrues on `balance`. */
  function DayInterest(balance: real, dailyRate: real): real
  {
    balance * dailyRate
  }

  /** Ledger row `i` (0-based) for a loan of `amount` repaid by `principal`
      a day, in closed form: by then `i` principal payments have come off. */
  function Row(amount: real, dailyRate: real, start: Date, principal: real, i: nat): DayRecord
  {
    var balance := Owed(amount, principal, i);
    DayRecord(i + 1, start + i, balance, DayInterest(balance, dailyRate), principal, principal + DayInterest(balance, dailyRate))
  }

  /** The first `k` rows of the ledger, in order. */
  function Rows(amount: real, dailyRate: real, start: Date, principal: real, k: nat): (rows: seq<DayRecord>)
    ensures |rows| == k
  {
    if k == 0 then [] else Rows(amount, dailyRate, start, principal, k - 1) + [Row(amount, dailyRate, start, principal, k - 1)]
  }

  /** Every row of a prefix is the closed-form row for its position. */
  lemma {:induction false} RowsAt(amount: real, dailyRate: real, start: Date, principal: real, k: nat, i: nat)
    requires i < k
    ensures Rows(amount, dailyRate, start, principal, k)[i] == Row(amount, dailyRate, start, principal, i)
  {
    if i < k - 1 {
      RowsAt(amount, dailyRate, start, principal, k - 1, i);
    }
  }

  /** A prefix of `k` rows is the prefix of `k − 1` rows and then row `k − 1`. */
  lemma RowsSplit(amount: real, dailyRate: real, start: Date, principal: real, k: nat)
    requires k > 0
    ensures Rows(amount, dailyRate, start, principal, k)[..k - 1] == Rows(amount, dailyRate, start, principal, k - 1)
    ensures Rows(amount, dailyRate, start, principal, k)[k - 1] == Row(amount, dailyRate, start, principal, k - 1)
  {
    var rows := Rows(amount, dailyRate, start, principal, k);
    assert rows == Rows(amount, dailyRate, start, principal, k - 1) + [Row(amount, dailyRate, start, principal, k - 1)];
  }

  /** The sum of the rows' daily interest. */
  function SumInterest(rows: seq<DayRecord>): real
  {
    if |rows| == 0 then 0.0 else SumInterest(rows[..|rows| - 1]) + rows[|rows| - 1].dailyInterest
  }

  /** The sum of the rows' principal payments. */
  function SumPrincipal(rows: seq<DayRecord>): real
  {
    if |rows| == 0 then 0.0 else SumPrincipal(rows[..|rows| - 1]) + rows[|rows| - 1].principalPayment
  }

  /** 0 + 1 + ... + (k − 1). */
  function Triangle(k: nat): nat
  {
    if k == 0 then 0 else Triangle(k - 1) + (k - 1)
  }

  lemma {:induction false} TriangleAsReal(k: nat)
    ensures 2.0 * Triangle(k) as real == k as real * (k as real - 1.0)
  {
    if k > 0 {
      TriangleAsReal(k - 1);
      var m := (k - 1) as real;
      assert 2.0 * Triangle(k) as real == 2.0 * Triangle(k - 1) as real + 2.0 * m;
      assert m * (m - 1.0) + 2.0 * m == (m + 1.0) * m;
    }
  }

  /** The opening balances of the first `k` days added up. */
  function BalanceSum(amount: real, principal: real, k: nat): real
  {
    if k == 0 then 0.0 else BalanceSum(amount, principal, k - 1) + Owed(amount, principal, k - 1)
  }

  lemma Distribute(rate: real, total: real, sum: real, balance: real)
    requires total == sum + balance
    ensures rate * total == rate * sum + DayInterest(balance, rate)
  {
  }

  /** Rows whose interest is the daily rate on an opening balance that
      falls by `principal` a day accrue, in all, the daily rate times the
      sum of those opening balances. */
  lemma {:induction false} InterestOfDecliningRows(rows: seq<DayRecord>, amount: real, dailyRate: real, principal: real)
    requires forall i :: 0 <= i < |rows| ==> rows[i].dailyInterest == DayInterest(Owed(amount, principal, i), dailyRate)
    ensures SumInterest(rows) == dailyRate * BalanceSum(amount, principal, |rows|)
  {
    var n := |rows|;
    if n > 0 {
      InterestOfDecliningRows(rows[..n - 1], amount, dailyRate, principal);
      Distribute(dailyRate, BalanceSum(amount, principal, n), BalanceSum(amount, principal, n - 1), Owed(amount, principal, n - 1));
    }
  }

  /** The interest over the first `k` days is the daily rate times the sum
      of their opening balances. */
  lemma RowsInterestSum(amount: real, dailyRate: real, start: Date, principal: real, k: nat)
    ensures SumInterest(Rows(amount, dailyRate, start, principal, k)) == dailyRate * BalanceSum(amount, principal, k)
  {
    var rows := Rows(amount, dailyRate, start, principal, k);
    forall i | 0 <= i < k
      ensures rows[i].dailyInterest == DayInterest(Owed(amount, principal, i), dailyRate)
    {
      RowsAt(amount, dailyRate, start, principal, k, i);
    }
    InterestOfDecliningRows(rows, amount, dailyRate, principal);
  }

  /** The first `k` opening balances add up to k·P less the payments made
      before each of them, (0 + 1 + ... + (k − 1)) daily payments in all. */
  lemma {:induction false} BalanceSumClosedForm(amount: real, principal: real, k: nat)
    ensures BalanceSum(amount, principal, k) == Scale(amount, k) - Scale(principal, Triangle(k))
  {
    if k > 0 {
      BalanceSumClosedForm(amount, principal, k - 1);
      ScaleAdd(principal, Triangle(k - 1), k - 1);
    }
  }

  /** The algebra of the interest closed form: `interest` is the rate
      times a balance sum of d·P − T·(P/d) with 2T = d(d − 1). */
  lemma InterestClosedFormAlgebra(rate: real, amount: real, days: nat, tri: real, balances: real, interest: real)
    requires days >= 1
    requires 2.0 * tri == days as real * (days as real - 1.0)
    requires balances == days as real * amount - tri * (amount / days as real)
    requires interest == rate * balances
    ensures interest == rate * amount * (days + 1) as real / 2.0
  {
    var d := days as real;
    var principal := amount / d;
    assert principal * d == amount;
    assert principal * (2.0 * tri) == amount * (d - 1.0);
    assert 2.0 * balances == amount * (d + 1.0);
  }

  /** Over a whole term of `days` days, with the principal split evenly
      over them, the interest is the daily rate times the principal times
      (days + 1) / 2: the average opening balance lies half way between the
      principal and one day's principal. */
  lemma LedgerInterestClosedForm(amount: real, dailyRate: real, start: Date, days: nat)
    requires days >= 1
    ensures SumInterest(Rows(amount, dailyRate, start, amount / days as real, days))
         == dailyRate * amount * (days + 1) as real / 2.0
  {
    var principal := amount / days as real;
    RowsInterestSum(amount, dailyRate, start, principal, days);
    BalanceSumClosedForm(amount, principal, days);
    ScaleIsProduct(amount, days);
    ScaleIsProduct(principal, Triangle(days));
    TriangleAsReal(days);
    InterestClosedFormAlgebra(dailyRate, amount, days, Triangle(days) as real,
      BalanceSum(amount, principal, days), SumInterest(Rows(amount, dailyRate, start, principal, days)));
  }

  /** Rows that each repay `principal` repay, together, one `principal` per row. */
  lemma {:induction false} PrincipalOfEvenRows(rows: seq<DayRecord>, principal: real)
    requires forall i :: 0 <= i < |rows| ==> rows[i].principalPayment == principal
    ensures SumPrincipal(rows) == Scale(principal, |rows|)
  {
    var n := |rows|;
    if n > 0 {
      PrincipalOfEvenRows(rows[..n - 1], principal);
    }
  }

  /** The first `k` days repay `k` daily principal payments. */
  lemma RowsPrincipalSum(amount: real, dailyRate: real, start: Date, principal: real, k: nat)
    ensures SumPrincipal(Rows(amount, dailyRate, start, principal, k)) == k as real * principal
  {
    var rows := Rows(amount, dailyRate, start, principal, k);
    forall i | 0 <= i < k
      ensures rows[i].principalPayment == principal
    {
      RowsAt(amount, dailyRate, start, principal, k, i);
    }
    PrincipalOfEvenRows(rows, principal);
    ScaleIsProduct(principal, k);
  }

  /** An even share of a non-negative amount is non-negative, and the
      shares add back up to the amount. */
  lemma EvenShare(amount: real, days: nat)
    requires days >= 1
    ensures (amount / days as real) * days as real == amount
    ensures Scale(amount / days as real, days) == amount
    ensures amount >= 0.0 ==> amount / days as real >= 0.0
  {
    ScaleIsProduct(amount / days as real, days);
  }

  /** The ledger repays exactly the principal, and its last day opens owing
      exactly one day's principal, so nothing is left at the end. */
  lemma LedgerRepaysPrincipal(amount: real, dailyRate: real, start: Date, days: nat)
    requires days >= 1
    ensures SumPrincipal(Rows(amount, dailyRate, start, amount / days as real, days)) == amount
    ensures var last := Rows(amount, dailyRate, start, amount / days as real, days)[days - 1];
      last.balanceStart - last.principalPayment == 0.0
  {
    var principal := amount / days as real;
    RowsPrincipalSum(amount, dailyRate, start, principal, days);
    RowsAt(amount, dailyRate, start, principal, days, days - 1);
    EvenShare(amount, days);
    OwedStep(amount, principal, days - 1);
  }

  /** Entry `i` of a ledger of `days` days: the day counts from 1, the date
      is `i` days after the start, the opening balance has had `i` daily
      principal payments taken off, the principal payment is the even share
      of the loan, and the day's payment is that share plus the day's
      interest on the opening balance. */
  lemma LedgerEntries(amount: real, dailyRate: real, start: Date, days: nat, i: nat)
    requires i < days
    ensures var row := Rows(amount, dailyRate, start, amount / days as real, days)[i];
      && row.day == i + 1
      && row.date == start + i
      && row.balanceStart == amount - i as real * (amount / days as real)
      && row.principalPayment == amount / days as real
      && row.dailyInterest == row.balanceStart * dailyRate
      && row.totalPayment == row.principalPayment + row.dailyInterest
  {
    RowsAt(amount, dailyRate, start, amount / days as real, days, i);
    ScaleIsProduct(amount / days as real, i);
  }

  /** The balance algebra: after `j` of `days` equal payments of a
      non-negative `principal` that add up to the loan, no more is owed
      than after `i <= j` of them, and at least one payment. */
  lemma BalanceBounds(amount: real, principal: real, days: nat, i: nat, j: nat)
    requires principal >= 0.0 && Scale(principal, days) == amount
    requires i <= j < days
    ensures principal <= Owed(amount, principal, j) <= Owed(amount, principal, i)
  {
    ScaleAdd(principal, i, j - i);
    ScaleNonNegative(principal, j - i);
    ScaleAdd(principal, j + 1, days - (j + 1));
    ScaleNonNegative(principal, days - (j + 1));
    assert Scale(principal, j + 1) == Scale(principal, j) + principal;
  }

  /** For a non-negative loan the opening balances never rise from one day
      to a later one, and none is below a day's principal. */
  lemma LedgerBalanceDeclines(amount: real, dailyRate: real, start: Date, days: nat, i: nat, j: nat)
    requires days >= 1 && amount >= 0.0
    requires i <= j < days
    ensures var rows := Rows(amount, dailyRate, start, amount / days as real, days);
      amount / days as real <= rows[j].balanceStart <= rows[i].balanceStart
  {
    var principal := amount / days as real;
    RowsAt(amount, dailyRate, start, principal, days, i);
    RowsAt(amount, dailyRate, start, principal, days, j);
    EvenShare(amount, days);
    BalanceBounds(amount, principal, days, i, j);
  }

  /** Appending day `k`'s entry, opening on what is owed after `k` payments,
      to the first `k` rows gives the first `k + 1` rows; the interest sum
      grows by that day's interest and one more payment comes off what is
      owed. */
  lemma LedgerGrows(amount: real, dailyRate: real, start: Date, principal: real, k: nat,
                    balance: real, dailyInterest: real, rows: seq<DayRecord>, grown: seq<DayRecord>)
    requires rows == Rows(amount, dailyRate, start, principal, k)
    requires balance == Owed(amount, principal, k) && dailyInterest == DayInterest(balance, dailyRate)
    requires grown == rows + [DayRecord(k + 1, start + k, balance, dailyInterest, principal, principal + dailyInterest)]
    ensures grown == Rows(amount, dailyRate, start, principal, k + 1)
    ensures SumInterest(grown) == SumInterest(rows) + dailyInterest
    ensures balance - principal == Owed(amount, principal, k + 1)
  {
    assert grown[..k] == rows;
    OwedStep(amount, principal, k);
  }

  /** The month count of the fixed-daily-principal calculation: step a
      calendar month at a time from the start while the date is not after
      the end. A non-empty term counts at least one month. */
  method CountMonths(cal: Calendar, start: Date, end: Date) returns (totalMonths: nat)
    requires cal.Valid() && start <= end
    ensures totalMonths == |MonthSteps(cal, start, end)|
    ensures totalMonths >= 1
  {
    totalMonths := 0;
    var currentMonth := start;
    while currentMonth <= end
      invariant totalMonths + |MonthSteps(cal, currentMonth, end)| == |MonthSteps(cal, start, end)|
      decreases end - currentMonth
    {
      totalMonths := totalMonths + 1;
      currentMonth := cal.addMonth(currentMonth);
    }
    assert MonthSteps(cal, start, end) == [start] + MonthSteps(cal, cal.addMonth(start), end);
  }

  /** The fixed-daily-principal calculation: the ledger loop over the days
      of the term, then the count of calendar months by stepping a month at
      a time from the start. */
  method CalculateDailyPaymentStructure(cal: Calendar, loanAmount: int, dailyRate: real, start: Date, end: Date)
      returns (r: LedgerSummary)
    requires cal.Valid() && start <= end
    ensures r.totalDays == (end - start) + 1
    ensures r.dailyPrincipalPayment == loanAmount as real / r.totalDays as real
    ensures r.dailyPayments == Rows(loanAmount as real, dailyRate, start, r.dailyPrincipalPayment, r.totalDays)
    ensures r.totalInterest == SumInterest(r.dailyPayments)
    ensures |MonthSteps(cal, start, end)| >= 1
    ensures r.averageMonthlyPayment == (r.totalInterest + loanAmount as real) / |MonthSteps(cal, start, end)| as real
  {
    var totalDays: nat := (end - start) + 1;
    var dailyPrincipalPayment := loanAmount as real / totalDays as real;

    var balance := loanAmount as real;
    var totalInterest := 0.0;
    var currentDate := start;
    var dailyPayments: seq<DayRecord> := [];

    var day := 1;
    while day <= totalDays
      invariant 1 <= day <= totalDays + 1
      invariant dailyPayments == Rows(loanAmount as real, dailyRate, start, dailyPrincipalPayment, day - 1)
      invariant balance == Owed(loanAmount as real, dailyPrincipalPayment, day - 1)
      invariant totalInterest == SumInterest(dailyPayments)
      invariant currentDate == start + (day - 1)
    {
      var dailyInterest := DayInterest(balance, dailyRate);
      var totalDailyPayment := dailyPrincipalPayment + dailyInterest;
      ghost var before := dailyPayments;
      dailyPayments := dailyPayments + [DayRecord(day, currentDate, balance, dailyInterest, dailyPrincipalPayment, totalDailyPayment)];
      totalInterest := totalInterest + dailyInterest;
      LedgerGrows(loanAmount as real, dailyRate, start, dailyPrincipalPayment, day - 1, balance, dailyInterest, before, dailyPayments);
      balance := balance - dailyPrincipalPayment;

      currentDate := currentDate + 1;
      day := day + 1;
    }

    var totalMonths := CountMonths(cal, start, end);
    var averageMonthlyPayment := (totalInterest + loanAmount as real) / totalMonths as real;

    r := LedgerSummary(dailyPrincipalPayment, totalInterest, averageMonthlyPayment, dailyPayments, totalDays);
  }

  /** The repository's worked example: 100000 at 9% a year from 1 June to
      30 November 2025 (183 days) accrues 828000/365 of interest, which
      rounds to 2268.49. */
  lemma WorkedExampleInterest(start: Date)
    ensures var interest := SumInterest(Rows(100000.0, 0.09 / 365.0, start, 100000.0 / 183.0, 183));
      interest == 828000.0 / 365.0 && 2268.485 <= interest < 2268.495
  {
    LedgerInterestClosedForm(100000.0, 0.09 / 365.0, start, 183);
  }

  /** With the month steps of that term (1 July, 1 August, 1 September,
      1 October and 1 November, then 1 December, past the end) the term has
      six calendar months and the average monthly payment rounds to
      17044.75. */
  lemma WorkedExampleAverage(cal: Calendar, start: Date)
    requires cal.Valid()
    requires cal.addMonth(start) == start + 30 && cal.addMonth(start + 30) == start + 61
    requires cal.addMonth(start + 61) == start + 92 && cal.addMonth(start + 92) == start + 122
    requires cal.addMonth(start + 122) == start + 153 && cal.addMonth(start + 153) == start + 183
    ensures |MonthSteps(cal, start, start + 182)| == 6
    ensures var interest := SumInterest(Rows(100000.0, 0.09 / 365.0, start, 100000.0 / 183.0, 183));
      var average := (interest + 100000.0) / |MonthSteps(cal, start, start + 182)| as real;
      17044.745 <= average < 17044.755
  {
    WorkedExampleInterest(start);
    var end := start + 182;
    assert MonthSteps(cal, start + 183, end) == [];
    assert MonthSteps(cal, start + 153, end) == [start + 153];
    assert |MonthSteps(cal, start + 122, end)| == 2;
    assert |MonthSteps(cal, start + 92, end)| == 3;
    assert |MonthSteps(cal, start + 61, end)| == 4;
    assert |MonthSteps(cal, start + 30, end)| == 5;
  }
}
