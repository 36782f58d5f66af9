/**
 * Payments and payment requests, the validation a request must pass before it
 * is applied, and the conversion of a request into a timestamped payment.
 */
module Payments {
  import opened Wrappers
  import opened Money
  import opened Errors
  import opened Times

  /** A recorded transfer of amount from account `from` to account `to`. */
  datatype Payment = Payment(id: int, from: int, to: int, amount: string, createdAt: Time)

  /** What a client asks for; not stored. */
  datatype PaymentRequest = PaymentRequest(from: int, to: int, amount: string)

  /** A request that may be applied: a positive decimal amount between two distinct positive ids. */
  predicate IsValidRequest(r: PaymentRequest)
  {
    && IsPositiveAmount(r.amount)
    && r.from > 0 && r.to > 0 && r.from != r.to
  }

  /** The invariant of every payment the service builds. */
  predicate IsValidPayment(p: Payment)
  {
    IsValidRequest(PaymentRequest(p.from, p.to, p.amount))
  }

  /**
   * The first failing check, in the order: amount well-formed, amount positive,
   * sender id positive, receiver id positive, ids distinct. A request that
   * fails exactly one check gets that check's error whatever the order.
   */
  function ValidatePaymentRequest(r: PaymentRequest): (err: Option<Error>)
    ensures err.None? <==> IsValidRequest(r)
    ensures Parse(r.amount).None? ==> err == Some(DecimalError(r.amount))
    ensures Parse(r.amount).Some? && Parse(r.amount).value.mant <= 0 && r.from > 0 && r.to > 0 && r.from != r.to
      ==> err == Some(NotPositiveAmount)
    ensures IsPositiveAmount(r.amount) && r.from <= 0 && r.to > 0 ==> err == Some(AccountFromMustBePositive)
    ensures IsPositiveAmount(r.amount) && r.from > 0 && r.to <= 0 ==> err == Some(AccountToMustBePositive)
    ensures IsPositiveAmount(r.amount) && r.from > 0 && r.from == r.to ==> err == Some(FromAndToMustBeDifferent)
    ensures err.Some? && Parse(r.amount).Some? ==>
      err.value in {NotPositiveAmount, AccountFromMustBePositive, AccountToMustBePositive, FromAndToMustBeDifferent}
  {
    match Parse(r.amount)
    case None => Some(DecimalError(r.amount))
    case Some(a) =>
      if a.mant <= 0 then Some(NotPositiveAmount)
      else if r.from <= 0 then Some(AccountFromMustBePositive)
      else if r.to <= 0 then Some(AccountToMustBePositive)
      else if r.from == r.to then Some(FromAndToMustBeDifferent)
      else None
  }

  /** The payment a request becomes at time `at`; the id is left for the store. */
  function ToPayment(r: PaymentRequest, at: Time): Payment
  {
    Payment(0, r.from, r.to, r.amount, at)
  }

  /** A validated request becomes a valid payment that carries the request's data and time. */
  lemma ValidatedPaymentIsValid(r: PaymentRequest, at: Time)
    requires ValidatePaymentRequest(r).None?
    ensures var p := ToPayment(r, at);
      && IsValidPayment(p)
      && p.id == 0 && p.createdAt == at
      && PaymentRequest(p.from, p.to, p.amount) == r
  {
  }

  /** What the amounts of the validation cases parse to. */
  lemma ValidationAmounts()
    ensures Parse("500") == Some(Decimal(500, 0))
    ensures Parse("-1") == Some(Decimal(-1, 0))
    ensures Parse("321,13").None?
  {
    ParseFiveHundred();
    ParseMinusOne();
    ParseRejectsComma("321,13", 3);
  }

  /** The whole amount 500. */
  lemma ParseFiveHundred()
    ensures Parse("500") == Some(Decimal(500, 0))
  {
    assert "500" == NatDigits(500);
    ParseNat(500);
  }

  /** A negative amount parses with its sign. */
  lemma ParseMinusOne()
    ensures Parse("-1") == Some(Decimal(-1, 0))
  {
    ParseWhole("1");
    assert "-" + "1" == "-1";
    assert DigitsValue("1") == 1 by {
      assert "1"[..0] == "";
    }
  }

  /** The cases of the package's request tests: one good request and one per rejection. */
  lemma ValidationTestCases(at: Time)
    ensures ValidatePaymentRequest(PaymentRequest(1, 2, "500")).None?
    ensures ValidatePaymentRequest(PaymentRequest(1, 2, "321,13")) == Some(DecimalError("321,13"))
    ensures ValidatePaymentRequest(PaymentRequest(1, 2, "-1")) == Some(NotPositiveAmount)
    ensures ValidatePaymentRequest(PaymentRequest(0, 2, "500")) == Some(AccountFromMustBePositive)
    ensures ValidatePaymentRequest(PaymentRequest(1, 0, "500")) == Some(AccountToMustBePositive)
    ensures ValidatePaymentRequest(PaymentRequest(1, 1, "500")) == Some(FromAndToMustBeDifferent)
    ensures ToPayment(PaymentRequest(1, 2, "500"), at) == Payment(0, 1, 2, "500", at)
  {
    ValidationAmounts();
  }

  predicate IsPositiveAmount(amount: string)
  {
    Parse(amount).Some? && Parse(amount).value.mant > 0
  }
}
