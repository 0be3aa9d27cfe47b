/**
 * The loan controller's summary calculation: the dispatcher on the
 * repayment type and the amortizing ("repayment") calculation, which prices
 * a level monthly payment with the annuity formula and then reports the
 * interest the daily walk accrues while that payment is made on each
 * monthly due date.
 */
module LoanController {
  import opened Calendar
  import opened Annuity
  import opened DailyAccrual

  const DaysPerYear: real := 365.0
  const MonthsPerYear: real := 12.0
  const InvalidRepaymentType: string := "Invalid repayment type"

  /** The repayment types the request validation accepts. */
  const AcceptedRepaymentTypes: set<string> := {"repayment", "interest-only", "interest-retained"}

  datatype Result<T> = Ok(value: T) | Err(message: string)

  /** The summary of an amortizing loan; `finalPayment` is the end date. */
  datatype RepaymentSummary = RepaymentSummary(
    monthlyPayment: real,
    totalInterest: real,
    totalPaid: real,
    finalPayment: Date)

  /** A loan calculation request, after parsing its dates. */
  datatype LoanRequest = LoanRequest(
    loanAmount: int,
    annualRate: real,
    start: Date,
    end: Date,
    repaymentType: string,
    name: string)
  {
    /** The request validation: a whole amount of at least 1, an annual
        rate between 0 and 1, an end date after the start date, one of the
        accepted repayment types and a name of at most 255 characters. */
    predicate Validated()
    {
      && loanAmount >= 1
      && 0.0 <= annualRate <= 1.0
      && start < end
      && repaymentType in AcceptedRepaymentTypes
      && |name| <= 255
    }
  }

  /** The number of months the annuity is spread over: the whole months of
      the term, but never fewer than one. */
  function AnnuityMonths(diffInMonths: nat): (months: nat)
    ensures months >= 1
    ensures diffInMonths >= 1 ==> months == diffInMonths
    ensures diffInMonths == 0 ==> months == 1
  {
    if diffInMonths == 0 then 1 else diffInMonths
  }

  /** The amortizing calculation. The level payment retires the loan over
      the clamped number of months; the interest reported is what the daily
      walk accrues while that payment is made on each due date, and the
      total paid is the principal plus that interest. */
  function CalculateRepaymentLoan(cal: Calendar, loanAmount: int, annualRate: real, start: Date, end: Date, dailyRate: real)
      : (r: RepaymentSummary)
    requires cal.Valid()
    ensures var months := AnnuityMonths(cal.diffInMonths(start, end));
      && r.monthlyPayment == AnnuityPayment(loanAmount as real, annualRate / MonthsPerYear, months)
      && (annualRate <= 0.0 ==> r.monthlyPayment * months as real == loanAmount as real)
    ensures r.totalInterest == TrueInterest(cal, loanAmount, start, end, dailyRate, r.monthlyPayment)
    ensures r.totalPaid == loanAmount as real + r.totalInterest
    ensures r.finalPayment == end
    ensures dailyRate >= 0.0 && loanAmount >= 0 ==> r.totalPaid >= loanAmount as real
    ensures dailyRate == 0.0 ==> r.totalPaid == loanAmount as real
  {
    var months := AnnuityMonths(cal.diffInMonths(start, end));
    var monthlyRate := annualRate / MonthsPerYear;
    var monthlyPayment := AnnuityPayment(loanAmount as real, monthlyRate, months);
    var totalInterest := TrueInterest(cal, loanAmount, start, end, dailyRate, monthlyPayment);
    RepaymentSummary(monthlyPayment, totalInterest, loanAmount as real + totalInterest, end)
  }

  /** The level payment of the amortizing calculation, made at the end of
      each of the clamped number of months, leaves nothing owing. */
  lemma RepaymentLoanRetiresPrincipal(cal: Calendar, loanAmount: int, annualRate: real, start: Date, end: Date, dailyRate: real)
    requires cal.Valid() && annualRate >= 0.0
    ensures var r := CalculateRepaymentLoan(cal, loanAmount, annualRate, start, end, dailyRate);
      AmortizedBalance(loanAmount as real, annualRate / MonthsPerYear, r.monthlyPayment, AnnuityMonths(cal.diffInMonths(start, end))) == 0.0
  {
    AnnuityRetiresLoan(loanAmount as real, annualRate / MonthsPerYear, AnnuityMonths(cal.diffInMonths(start, end)));
  }

  /** The dispatcher: only the "repayment" type has a calculation; every
      other type is rejected with the invalid-repayment-type error. */
  function CalculateLoanSummary(cal: Calendar, loanAmount: int, annualRate: real, start: Date, end: Date, repaymentType: string)
      : (r: Result<RepaymentSummary>)
    requires cal.Valid()
    ensures r.Ok? <==> repaymentType == "repayment"
    ensures r.Err? ==> r.message == InvalidRepaymentType
    ensures r.Ok? ==> r.value == CalculateRepaymentLoan(cal, loanAmount, annualRate, start, end, annualRate / DaysPerYear)
    ensures r.Ok? ==> r.value.totalPaid == loanAmount as real + r.value.totalInterest && r.value.finalPayment == end
  {
    var dailyRate := annualRate / DaysPerYear;
    match repaymentType
    case "repayment" => Ok(CalculateRepaymentLoan(cal, loanAmount, annualRate, start, end, dailyRate))
    case _ => Err(InvalidRepaymentType)
  }

  /** For a request that passed validation, the two other accepted
      repayment types are still rejected, and a "repayment" request gets a
      positive level payment that retires the loan, a non-negative interest
      and a total paid of at least the principal. */
  lemma ValidatedRequestSummary(cal: Calendar, req: LoanRequest)
    requires cal.Valid() && req.Validated()
    ensures var r := CalculateLoanSummary(cal, req.loanAmount, req.annualRate, req.start, req.end, req.repaymentType);
      && (req.repaymentType in {"interest-only", "interest-retained"} ==> r == Err(InvalidRepaymentType))
      && (req.repaymentType == "repayment" ==>
            && r.Ok?
            && r.value.monthlyPayment > 0.0
            && AmortizedBalance(req.loanAmount as real, req.annualRate / MonthsPerYear, r.value.monthlyPayment,
                 AnnuityMonths(cal.diffInMonths(req.start, req.end))) == 0.0
            && r.value.totalInterest >= 0.0
            && r.value.totalPaid >= req.loanAmount as real)
  {
    if req.repaymentType == "repayment" {
      var months := AnnuityMonths(cal.diffInMonths(req.start, req.end));
      AnnuityPaymentPositive(req.loanAmount as real, req.annualRate / MonthsPerYear, months);
      RepaymentLoanRetiresPrincipal(cal, req.loanAmount, req.annualRate, req.start, req.end, req.annualRate / DaysPerYear);
    }
  }

  /** The level payment covers a day's interest on the whole loan: it
      covers a month's, and a monthly rate is at least the daily rate. */
  lemma PaymentCoversDailyInterest(loanAmount: real, annualRate: real, months: nat, payment: real)
    requires months >= 1 && loanAmount >= 0.0 && annualRate >= 0.0
    requires payment == AnnuityPayment(loanAmount, annualRate / MonthsPerYear, months)
    ensures payment >= loanAmount * (annualRate / DaysPerYear)
  {
    AnnuityPaymentCoversInterest(loanAmount, annualRate / MonthsPerYear, months);
    NonNegativeProduct(loanAmount, annualRate / MonthsPerYear - annualRate / DaysPerYear);
  }

  /** On the dispatched path the level payment (the one
      `CalculateRepaymentLoan` returns) covers a day's interest on the loan at
      a non-negative rate. That is the covering condition `StepKeepsBalanceDown`
      keeps from day to day, so the daily walk ends owing no more than the
      principal. */
  lemma RepaymentWalkBalanceNeverRises(cal: Calendar, loanAmount: int, annualRate: real, start: Date, end: Date)
    requires cal.Valid() && loanAmount >= 0 && annualRate >= 0.0
    ensures var payment := AnnuityPayment(loanAmount as real, annualRate / MonthsPerYear, AnnuityMonths(cal.diffInMonths(start, end)));
      payment >= Accrual(start, loanAmount as real, 0.0).balance * (annualRate / DaysPerYear)
    ensures var payment := AnnuityPayment(loanAmount as real, annualRate / MonthsPerYear, AnnuityMonths(cal.diffInMonths(start, end)));
      Walk(Accrual(start, loanAmount as real, 0.0), end, annualRate / DaysPerYear, payment, DueDates(cal, start, end)).balance
        <= loanAmount as real
  {
    var payment := AnnuityPayment(loanAmount as real, annualRate / MonthsPerYear, AnnuityMonths(cal.diffInMonths(start, end)));
    PaymentCoversDailyInterest(loanAmount as real, annualRate, AnnuityMonths(cal.diffInMonths(start, end)), payment);
    WalkBalanceNonIncreasing(Accrual(start, loanAmount as real, 0.0), end, annualRate / DaysPerYear, payment, DueDates(cal, start, end));
  }
}
