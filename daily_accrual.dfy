/**
 * Daily interest accrual with monthly payments: the walk that reports the
 * true interest of an amortizing loan. Interest accrues every day on the
 * running balance; on each monthly due date the level payment, net of that
 * day's interest, comes off the balance, which never drops below zero. The
 * walk stops after the end date or once the balance is paid down to a cent.
 */
module DailyAccrual {
  import opened Calendar

  /** A balance at or below this is treated as paid off. */
  const SettledBalance: real := 0.01

  function Max(a: real, b: real): real
  {
    if a >= b then a else b
  }

  /** The walk's state at the top of a day: the date, what is owed, and the
      interest accrued so far. */
  datatype Accrual = Accrual(day: Date, balance: real, interest: real)

  /** The walk goes on while the date is not after the end and something
      more than a cent is still owed. */
  predicate Running(s: Accrual, end: Date)
  {
    s.day <= end && s.balance > SettledBalance
  }

  /** One day of the walk: accrue the day's interest, take the payment on a
      due date, move to the next day. */
  function Step(s: Accrual, dailyRate: real, monthlyPayment: real, due: seq<Date>): Accrual
  {
    var dailyInterest := s.balance * dailyRate;
    var balance := if s.day in due then Max(0.0, s.balance - monthlyPayment + dailyInterest) else s.balance;
    Accrual(s.day + 1, balance, s.interest + dailyInterest)
  }

  /** The state in which the walk from `s` stops. */
  function Walk(s: Accrual, end: Date, dailyRate: real, monthlyPayment: real, due: seq<Date>): Accrual
    decreases end - s.day
  {
    if Running(s, end) then Walk(Step(s, dailyRate, monthlyPayment, due), end, dailyRate, monthlyPayment, due) else s
  }

  lemma NonNegativeProduct(a: real, b: real)
    requires a >= 0.0 && b >= 0.0
    ensures a * b >= 0.0
  {
  }

  /** The walk stops only once the date has passed the end or the loan is
      settled; it never goes back in time and never runs past the day after
      the end. */
  lemma {:induction false} WalkStops(s: Accrual, end: Date, dailyRate: real, monthlyPayment: real, due: seq<Date>)
    ensures !Running(Walk(s, end, dailyRate, monthlyPayment, due), end)
    ensures s.day <= Walk(s, end, dailyRate, monthlyPayment, due).day
    ensures s.day <= end + 1 ==> Walk(s, end, dailyRate, monthlyPayment, due).day <= end + 1
    decreases end - s.day
  {
    if Running(s, end) {
      WalkStops(Step(s, dailyRate, monthlyPayment, due), end, dailyRate, monthlyPayment, due);
    }
  }

  /** A balance that starts non-negative stays non-negative to the end of
      the walk, and at a non-negative daily rate the accrued interest only
      grows. */
  lemma {:induction false} WalkKeepsSigns(s: Accrual, end: Date, dailyRate: real, monthlyPayment: real, due: seq<Date>)
    ensures s.balance >= 0.0 ==> Walk(s, end, dailyRate, monthlyPayment, due).balance >= 0.0
    ensures s.balance >= 0.0 && dailyRate >= 0.0 ==> Walk(s, end, dailyRate, monthlyPayment, due).interest >= s.interest
    decreases end - s.day
  {
    if Running(s, end) && s.balance >= 0.0 {
      if dailyRate >= 0.0 {
        NonNegativeProduct(s.balance, dailyRate);
      }
      StepKeepsBalanceNonNegative(s, dailyRate, monthlyPayment, due);
      WalkKeepsSigns(Step(s, dailyRate, monthlyPayment, due), end, dailyRate, monthlyPayment, due);
    }
  }

  /** At a daily rate of zero the walk accrues no interest at all. */
  lemma {:induction false} WalkAtZeroRate(s: Accrual, end: Date, monthlyPayment: real, due: seq<Date>)
    ensures Walk(s, end, 0.0, monthlyPayment, due).interest == s.interest
    decreases end - s.day
  {
    if Running(s, end) {
      WalkAtZeroRate(Step(s, 0.0, monthlyPayment, due), end, monthlyPayment, due);
    }
  }

  /** One day keeps the balance non-negative, whatever the payment, and at
      a non-negative rate the accrued interest does not fall. */
  lemma StepKeepsBalanceNonNegative(s: Accrual, dailyRate: real, monthlyPayment: real, due: seq<Date>)
    requires s.balance >= 0.0
    ensures Step(s, dailyRate, monthlyPayment, due).balance >= 0.0
    ensures Step(s, dailyRate, monthlyPayment, due).day == s.day + 1
    ensures dailyRate >= 0.0 ==> Step(s, dailyRate, monthlyPayment, due).interest >= s.interest
  {
    if dailyRate >= 0.0 {
      NonNegativeProduct(s.balance, dailyRate);
    }
  }

  /** When the payment covers a day's interest on the balance, one day does
      not raise the balance, and the payment still covers a day's interest on
      the new balance: the covering condition is a step invariant. */
  lemma StepKeepsBalanceDown(s: Accrual, dailyRate: real, monthlyPayment: real, due: seq<Date>)
    requires dailyRate >= 0.0 && s.balance >= 0.0
    requires monthlyPayment >= s.balance * dailyRate
    ensures Step(s, dailyRate, monthlyPayment, due).balance <= s.balance
    ensures monthlyPayment >= Step(s, dailyRate, monthlyPayment, due).balance * dailyRate
  {
    NonNegativeProduct(s.balance - Step(s, dailyRate, monthlyPayment, due).balance, dailyRate);
  }

  /** Once the balance is down to a cent (or the end has passed) the walk
      does nothing more: no further interest accrues. */
  lemma SettledAccruesNothing(s: Accrual, end: Date, dailyRate: real, monthlyPayment: real, due: seq<Date>)
    requires s.balance <= SettledBalance || s.day > end
    ensures Walk(s, end, dailyRate, monthlyPayment, due) == s
  {
  }

  /** When the payment covers a day's interest on the starting balance (and
      the rate is not negative) the walk ends owing no more than it started
      with: by `StepKeepsBalanceDown` no single day raises the balance. */
  lemma {:induction false} WalkBalanceNonIncreasing(s: Accrual, end: Date, dailyRate: real, monthlyPayment: real, due: seq<Date>)
    requires dailyRate >= 0.0 && s.balance >= 0.0
    requires monthlyPayment >= s.balance * dailyRate
    ensures Walk(s, end, dailyRate, monthlyPayment, due).balance <= s.balance
    decreases end - s.day
  {
    if Running(s, end) {
      var t := Step(s, dailyRate, monthlyPayment, due);
      StepKeepsBalanceNonNegative(s, dailyRate, monthlyPayment, due);
      StepKeepsBalanceDown(s, dailyRate, monthlyPayment, due);
      WalkBalanceNonIncreasing(t, end, dailyRate, monthlyPayment, due);
    }
  }

  /** The state one day later: the next date, the day's interest added,
      and the payment taken on a due date. */
  lemma StepTo(s: Accrual, dailyRate: real, monthlyPayment: real, due: seq<Date>, dailyInterest: real, t: Accrual)
    requires dailyInterest == s.balance * dailyRate
    requires t.day == s.day + 1 && t.interest == s.interest + dailyInterest
    requires t.balance == if s.day in due then Max(0.0, s.balance - monthlyPayment + dailyInterest) else s.balance
    ensures Step(s, dailyRate, monthlyPayment, due) == t
  {
  }

  /** A running walk continues from the state one day later. */
  lemma WalkAdvances(s: Accrual, end: Date, dailyRate: real, monthlyPayment: real, due: seq<Date>, t: Accrual)
    requires Running(s, end)
    requires Step(s, dailyRate, monthlyPayment, due) == t
    ensures Walk(s, end, dailyRate, monthlyPayment, due) == Walk(t, end, dailyRate, monthlyPayment, due)
  {
  }

  /** The true interest of a loan of `loanAmount` from `start` to `end`,
      paying `monthlyPayment` on each monthly due date. */
  function TrueInterest(cal: Calendar, loanAmount: int, start: Date, end: Date, dailyRate: real, monthlyPayment: real): (interest: real)
    requires cal.Valid()
    ensures dailyRate >= 0.0 && loanAmount >= 0 ==> interest >= 0.0
    ensures dailyRate == 0.0 ==> interest == 0.0
  {
    var s := Accrual(start, loanAmount as real, 0.0);
    WalkKeepsSigns(s, end, dailyRate, monthlyPayment, DueDates(cal, start, end));
    WalkAtZeroRate(s, end, monthlyPayment, DueDates(cal, start, end));
    Walk(Accrual(start, loanAmount as real, 0.0), end, dailyRate, monthlyPayment, DueDates(cal, start, end)).interest
  }

  /** The walk takes at most one step per day of the term: it starts on the
      start date and stops by the day after the end date. */
  lemma WalkWithinTerm(cal: Calendar, loanAmount: int, start: Date, end: Date, dailyRate: real, monthlyPayment: real)
    requires cal.Valid() && start <= end
    ensures var r := Walk(Accrual(start, loanAmount as real, 0.0), end, dailyRate, monthlyPayment, DueDates(cal, start, end));
      0 <= r.day - start <= (end - start) + 1 && (r.day <= end ==> r.balance <= SettledBalance)
  {
    WalkStops(Accrual(start, loanAmount as real, 0.0), end, dailyRate, monthlyPayment, DueDates(cal, start, end));
  }

  /** The daily walk itself: first the list of due dates, then one pass of
      the loop per day. */
  method CalculateDailyInterestWithMonthlyPayments(cal: Calendar, loanAmount: int, start: Date, end: Date, dailyRate: real, monthlyPayment: real)
      returns (totalInterest: real)
    requires cal.Valid()
    ensures totalInterest == TrueInterest(cal, loanAmount, start, end, dailyRate, monthlyPayment)
    ensures dailyRate >= 0.0 && loanAmount >= 0 ==> totalInterest >= 0.0
    ensures dailyRate == 0.0 ==> totalInterest == 0.0
  {
    var balance := loanAmount as real;
    totalInterest := 0.0;
    var currentDate := start;

    var paymentDates: seq<Date> := [];
    var paymentDate := cal.addMonth(start);
    while paymentDate <= end
      invariant paymentDates + MonthSteps(cal, paymentDate, end) == DueDates(cal, start, end)
      decreases end - paymentDate
    {
      assert MonthSteps(cal, paymentDate, end) == [paymentDate] + MonthSteps(cal, cal.addMonth(paymentDate), end);
      paymentDates := paymentDates + [paymentDate];
      paymentDate := cal.addMonth(paymentDate);
    }

    assert MonthSteps(cal, paymentDate, end) == [];
    assert paymentDates == DueDates(cal, start, end);

    ghost var walk := Walk(Accrual(start, balance, 0.0), end, dailyRate, monthlyPayment, paymentDates);
    while currentDate <= end && balance > SettledBalance
      invariant Walk(Accrual(currentDate, balance, totalInterest), end, dailyRate, monthlyPayment, paymentDates) == walk
      decreases end - currentDate
    {
      ghost var today := Accrual(currentDate, balance, totalInterest);
      var dailyInterest := balance * dailyRate;
      totalInterest := totalInterest + dailyInterest;

      if currentDate in paymentDates {
        balance := Max(0.0, balance - monthlyPayment + dailyInterest);
      }

      currentDate := currentDate + 1;
      StepTo(today, dailyRate, monthlyPayment, paymentDates, dailyInterest, Accrual(currentDate, balance, totalInterest));
      WalkAdvances(today, end, dailyRate, monthlyPayment, paymentDates, Accrual(currentDate, balance, totalInterest));
    }
    assert Walk(Accrual(currentDate, balance, totalInterest), end, dailyRate, monthlyPayment, paymentDates)
        == Accrual(currentDate, balance, totalInterest);
  }
}
