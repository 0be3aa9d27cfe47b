/**
 * Calendar arithmetic as the loan calculations use it.
 *
 * A date is a whole day number, so "the next day" is `d + 1` and the number
 * of days between two dates is their difference. The two month operations
 * the calculations ask of the date library (one calendar month later, and
 * the whole months between two dates) depend on month lengths and on the
 * library's month-end policy; they are supplied by the caller as a
 * `Calendar`, and the only thing assumed of them is that adding a month
 * moves strictly forward.
 */
module Calendar {

  type Date = int

  /** The date library's month operations: `addMonth(d)` is the date one
      calendar month after `d`; `diffInMonths(a, b)` the whole months from
      `a` to `b`. */
  datatype Calendar = Calendar(addMonth: Date -> Date, diffInMonths: (Date, Date) -> nat)
  {
    /** Adding a month always lands on a later date. Nothing more is assumed:
        with month-end overflow, stepping is not even monotone (31 January
        steps past the date 1 February steps to). */
    ghost predicate Valid()
    {
      forall d: Date :: d < addMonth(d)
    }
  }

  predicate StrictlyIncreasing(dates: seq<Date>)
  {
    forall i, j :: 0 <= i < j < |dates| ==> dates[i] < dates[j]
  }

  /** The dates a loop visits that starts at `from`, steps one month at a
      time and stops at the first date after `end`: `from`, `addMonth(from)`,
      `addMonth(addMonth(from))`, ... */
  function MonthSteps(cal: Calendar, from: Date, end: Date): seq<Date>
    requires cal.Valid()
    decreases end - from
  {
    if from > end then [] else [from] + MonthSteps(cal, cal.addMonth(from), end)
  }

  /** The visited dates start at `from`, rise strictly, all lie between
      `from` and `end`, and the loop stops at the first step past `end`. */
  lemma {:induction false} MonthStepsShape(cal: Calendar, from: Date, end: Date)
    requires cal.Valid()
    ensures var dates := MonthSteps(cal, from, end);
      && (|dates| > 0 <==> from <= end)
      && (|dates| > 0 ==> dates[0] == from)
      && (forall i :: 0 <= i < |dates| ==> from <= dates[i] <= end)
      && StrictlyIncreasing(dates)
      && (|dates| > 0 ==> end < cal.addMonth(dates[|dates| - 1]))
    decreases end - from
  {
    if from <= end {
      var next := cal.addMonth(from);
      MonthStepsShape(cal, next, end);
      var rest := MonthSteps(cal, next, end);
      var dates := MonthSteps(cal, from, end);
      assert dates == [from] + rest;
      forall i, j | 0 <= i < j < |dates| ensures dates[i] < dates[j] {
        if i > 0 {
          assert dates[i] == rest[i - 1] && dates[j] == rest[j - 1];
        }
      }
    }
  }

  /** Each visited date is one month after the one before it. */
  lemma {:induction false} MonthStepsAreMonthly(cal: Calendar, from: Date, end: Date, i: nat)
    requires cal.Valid()
    requires 0 < i < |MonthSteps(cal, from, end)|
    ensures MonthSteps(cal, from, end)[i] == cal.addMonth(MonthSteps(cal, from, end)[i - 1])
    decreases end - from
  {
    if i > 1 {
      MonthStepsAreMonthly(cal, cal.addMonth(from), end, i - 1);
    }
  }

  /** The monthly due dates of a loan running from `start` to `end`: one
      month after the start, two months after, and so on while the date is
      not after the end. */
  function DueDates(cal: Calendar, start: Date, end: Date): seq<Date>
    requires cal.Valid()
  {
    MonthSteps(cal, cal.addMonth(start), end)
  }

  /** The due dates rise strictly; the first is one month after the start;
      none falls on the start date or after the end date; there are none
      exactly when the term is shorter than a month. */
  lemma DueDatesShape(cal: Calendar, start: Date, end: Date)
    requires cal.Valid()
    ensures var due := DueDates(cal, start, end);
      && (|due| > 0 <==> cal.addMonth(start) <= end)
      && (|due| > 0 ==> due[0] == cal.addMonth(start))
      && (forall i :: 0 <= i < |due| ==> start < due[i] <= end)
      && StrictlyIncreasing(due)
      && start !in due
  {
    MonthStepsShape(cal, cal.addMonth(start), end);
  }

  /** Counting the months of a non-empty term by stepping from its start
      visits the start itself and then exactly the due dates. */
  lemma MonthCountIsDueDatesPlusOne(cal: Calendar, start: Date, end: Date)
    requires cal.Valid()
    requires start <= end
    ensures MonthSteps(cal, start, end) == [start] + DueDates(cal, start, end)
    ensures |MonthSteps(cal, start, end)| == |DueDates(cal, start, end)| + 1
  {
  }
}
