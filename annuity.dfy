/**
 * The level monthly payment of an amortizing loan, and the month-by-month
 * amortization it is designed for: paying it at the end of each of `n`
 * months, after a month's interest has been added, leaves nothing owing.
 */
module Annuity {

  /** `x` raised to a whole power. */
  function Pow(x: real, n: nat): real
  {
    if n == 0 then 1.0 else Pow(x, n - 1) * x
  }

  lemma {:induction false} PowAboveOne(x: real, n: nat)
    requires x > 1.0 && n >= 1
    ensures Pow(x, n) > 1.0
  {
    if n > 1 {
      PowAboveOne(x, n - 1);
      var p := Pow(x, n - 1);
      assert p * x - p == p * (x - 1.0);
    }
  }

  lemma {:induction false} PowOfOne(n: nat)
    ensures Pow(1.0, n) == 1.0
  {
    if n > 0 {
      PowOfOne(n - 1);
    }
  }

  /** The level payment for `loanAmount` over `months` months at
      `monthlyRate`: the annuity formula P·r(1+r)^n / ((1+r)^n − 1) when the
      rate is positive, an even split of the principal otherwise. */
  function AnnuityPayment(loanAmount: real, monthlyRate: real, months: nat): (payment: real)
    requires months >= 1
    ensures monthlyRate > 0.0 ==>
      payment * (Pow(1.0 + monthlyRate, months) - 1.0) == loanAmount * monthlyRate * Pow(1.0 + monthlyRate, months)
    ensures monthlyRate <= 0.0 ==> payment * months as real == loanAmount
  {
    if monthlyRate > 0.0 then
      PowAboveOne(1.0 + monthlyRate, months);
      var growth := Pow(1.0 + monthlyRate, months);
      loanAmount * (monthlyRate * growth) / (growth - 1.0)
    else
      loanAmount / months as real
  }

  /** What is still owed after `k` months when each month first adds a
      month's interest at `monthlyRate` and then takes off `payment`. */
  function AmortizedBalance(loanAmount: real, monthlyRate: real, payment: real, k: nat): real
  {
    if k == 0 then loanAmount
    else AmortizedBalance(loanAmount, monthlyRate, payment, k - 1) * (1.0 + monthlyRate) - payment
  }

  /** 1 + q + q² + ... + q^(k−1). */
  function Geometric(q: real, k: nat): real
  {
    if k == 0 then 0.0 else Geometric(q, k - 1) * q + 1.0
  }

  lemma {:induction false} GeometricTimesStep(q: real, k: nat)
    ensures Geometric(q, k) * (q - 1.0) == Pow(q, k) - 1.0
  {
    if k > 0 {
      GeometricTimesStep(q, k - 1);
      var g := Geometric(q, k - 1);
      assert (g * q + 1.0) * (q - 1.0) == q * (g * (q - 1.0)) + q - 1.0;
    }
  }

  lemma {:induction false} GeometricOfOne(k: nat)
    ensures Geometric(1.0, k) == k as real
  {
    if k > 0 {
      GeometricOfOne(k - 1);
    }
  }

  /** The balance after `k` months, in closed form. */
  lemma {:induction false} AmortizedBalanceClosedForm(loanAmount: real, monthlyRate: real, payment: real, k: nat)
    ensures AmortizedBalance(loanAmount, monthlyRate, payment, k)
         == loanAmount * Pow(1.0 + monthlyRate, k) - payment * Geometric(1.0 + monthlyRate, k)
  {
    if k > 0 {
      AmortizedBalanceClosedForm(loanAmount, monthlyRate, payment, k - 1);
      var q := 1.0 + monthlyRate;
      var p := Pow(q, k - 1);
      var g := Geometric(q, k - 1);
      assert (loanAmount * p - payment * g) * q - payment
          == loanAmount * (p * q) - payment * (g * q + 1.0);
    }
  }

  /** The algebra behind the annuity formula, on plain reals: with
      sum·r = growth − 1 and payment·(growth − 1) = P·r·growth, the
      payment times sum is P·growth. */
  lemma AnnuityAlgebra(loanAmount: real, rate: real, growth: real, sum: real, payment: real)
    requires rate > 0.0 && growth > 1.0
    requires sum * rate == growth - 1.0
    requires payment * (growth - 1.0) == loanAmount * rate * growth
    ensures loanAmount * growth - payment * sum == 0.0
  {
    assert (payment * sum) * rate == (loanAmount * growth) * rate;
  }

  /** At a positive rate, any payment that satisfies the annuity equation
      payment·((1+r)^n − 1) = P·r·(1+r)^n retires the loan in n months. */
  lemma PositiveRateRetiresLoan(loanAmount: real, monthlyRate: real, months: nat, payment: real)
    requires months >= 1 && monthlyRate > 0.0
    requires payment * (Pow(1.0 + monthlyRate, months) - 1.0) == loanAmount * monthlyRate * Pow(1.0 + monthlyRate, months)
    ensures AmortizedBalance(loanAmount, monthlyRate, payment, months) == 0.0
  {
    var q := 1.0 + monthlyRate;
    AmortizedBalanceClosedForm(loanAmount, monthlyRate, payment, months);
    PowAboveOne(q, months);
    GeometricTimesStep(q, months);
    AnnuityAlgebra(loanAmount, monthlyRate, Pow(q, months), Geometric(q, months), payment);
  }

  /** The annuity payment retires the loan exactly: after `months` monthly
      periods at a non-negative rate nothing is left owing. */
  lemma AnnuityRetiresLoan(loanAmount: real, monthlyRate: real, months: nat)
    requires months >= 1 && monthlyRate >= 0.0
    ensures AmortizedBalance(loanAmount, monthlyRate, AnnuityPayment(loanAmount, monthlyRate, months), months) == 0.0
  {
    var payment := AnnuityPayment(loanAmount, monthlyRate, months);
    if monthlyRate > 0.0 {
      PositiveRateRetiresLoan(loanAmount, monthlyRate, months, payment);
    } else {
      AmortizedBalanceClosedForm(loanAmount, monthlyRate, payment, months);
      PowOfOne(months);
      GeometricOfOne(months);
    }
  }

  /** The payment is positive for a positive loan at a non-negative rate. */
  lemma AnnuityPaymentPositive(loanAmount: real, monthlyRate: real, months: nat)
    requires months >= 1 && monthlyRate >= 0.0 && loanAmount > 0.0
    ensures AnnuityPayment(loanAmount, monthlyRate, months) > 0.0
  {
    var payment := AnnuityPayment(loanAmount, monthlyRate, months);
    if monthlyRate > 0.0 {
      var growth := Pow(1.0 + monthlyRate, months);
      PowAboveOne(1.0 + monthlyRate, months);
      assert loanAmount * monthlyRate * growth > 0.0;
      assert payment * (growth - 1.0) > 0.0;
    }
  }

  /** The payment covers at least a month's interest on the whole loan:
      at a positive rate the annuity equation gives payment·(g − 1) =
      P·r·g with g > 1, so payment ≥ P·r; at a zero rate the payment is
      the even share P/n ≥ 0. */
  lemma AnnuityPaymentCoversInterest(loanAmount: real, monthlyRate: real, months: nat)
    requires months >= 1 && monthlyRate >= 0.0 && loanAmount >= 0.0
    ensures AnnuityPayment(loanAmount, monthlyRate, months) >= loanAmount * monthlyRate
  {
    var payment := AnnuityPayment(loanAmount, monthlyRate, months);
    if monthlyRate > 0.0 {
      var growth := Pow(1.0 + monthlyRate, months);
      PowAboveOne(1.0 + monthlyRate, months);
      var owed, excess := loanAmount * monthlyRate, growth - 1.0;
      assert payment * excess == owed * excess + owed;
      assert (payment - owed) * excess == owed;
      assert payment - owed == owed / excess;
      assert owed >= 0.0;
    }
  }
}
