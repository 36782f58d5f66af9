/**
 * Accounts: an id, a decimal balance kept as text, and a creation time. A
 * payment debits its sender and credits its receiver, and the new balance is
 * written back with exactly two fractional digits.
 */
module Accounts {
  import opened Wrappers
  import opened Money
  import opened Errors
  import opened Times
  import opened Payments

  /** The opening balance of an account that has no stored record yet. */
  const DefaultBalance: string := "1000"

  /** An account's fields as one value, the form in which the store keeps it. */
  datatype AccountRow = AccountRow(id: int, balance: string, createdAt: Time)

  /**
   * What applying p to the account `id` with text `balance` yields: the new
   * balance text, or the error that leaves the account as it was.
   */
  function Apply(id: int, balance: string, p: Payment): Result<string, Error>
  {
    match Parse(balance)
    case None => Failure(DecimalError(balance))
    case Some(b) =>
      match Parse(p.amount)
      case None => Failure(DecimalError(p.amount))
      case Some(a) =>
        if id == p.from then
          if Less(b, a) then Failure(NotEnoughFunds) else Success(StringFixed2(Sub(b, a)))
        else if id == p.to then
          Success(StringFixed2(Add(b, a)))
        else
          Failure(MismatchPayment)
  }

  class Account {
    var id: int
    var balance: string
    var createdAt: Time

    /** A fresh account with the default opening balance. */
    constructor Create(id: int, createdAt: Time)
      ensures Row() == AccountRow(id, DefaultBalance, createdAt)
    {
      this.id := id;
      this.balance := DefaultBalance;
      this.createdAt := createdAt;
    }

    /** The object the store materialises for one of its rows. */
    constructor Load(row: AccountRow)
      ensures Row() == row
    {
      id := row.id;
      balance := row.balance;
      createdAt := row.createdAt;
    }

    function Row(): AccountRow
      reads this
    {
      AccountRow(id, balance, createdAt)
    }

    /**
     * Parses the balance, then the amount; debits the sender (refusing an
     * amount above the balance), credits the receiver, or refuses a payment
     * that does not concern this account. Only the balance changes, and only
     * on success.
     */
    method ApplyPayment(p: Payment) returns (err: Option<Error>)
      modifies this`balance
      ensures match Apply(id, old(balance), p)
              case Success(b) => err == None && balance == b
              case Failure(e) => err == Some(e) && balance == old(balance)
    {
      var b := Parse(balance);
      if b.None? {
        return Some(DecimalError(balance));
      }
      var a := Parse(p.amount);
      if a.None? {
        return Some(DecimalError(p.amount));
      }
      if id == p.from {
        if Less(b.value, a.value) {
          return Some(NotEnoughFunds);
        }
        balance := StringFixed2(Sub(b.value, a.value));
      } else if id == p.to {
        balance := StringFixed2(Add(b.value, a.value));
      } else {
        return Some(MismatchPayment);
      }
      return None;
    }
  }

  /** An account id is valid exactly when it is positive. */
  function ValidateAccountID(id: int): (err: Option<Error>)
    ensures err.None? <==> id > 0
    ensures err.Some? ==> err.value == MustBePositive
  {
    if id <= 0 then Some(MustBePositive) else None
  }

  // ------------------------------------------------------------ properties

  /** The balance is parsed first, so a malformed balance is reported even when the amount is malformed too. */
  lemma ApplyMalformed(id: int, balance: string, p: Payment)
    requires Parse(balance).None? || Parse(p.amount).None?
    ensures Apply(id, balance, p)
         == Failure(DecimalError(if Parse(balance).None? then balance else p.amount))
  {
  }

  /**
   * Every balance Apply writes has two fractional digits, parses back to the
   * rounded difference (for the sender) or sum (for the receiver), and is
   * reproduced by parsing and formatting it again.
   */
  lemma {:induction false} ApplyWritesCanonical(id: int, balance: string, p: Payment)
    requires Apply(id, balance, p).Success?
    ensures var s := Apply(id, balance, p).value;
      var b, a := Parse(balance).value, Parse(p.amount).value;
      && HasTwoDecimals(s)
      && Parse(s) == Some(Decimal(Round(if id == p.from then Sub(b, a) else Add(b, a)), 2))
      && Format(Parse(s).value.mant) == s
  {
    var b, a := Parse(balance).value, Parse(p.amount).value;
    var d := if id == p.from then Sub(b, a) else Add(b, a);
    assert Apply(id, balance, p).value == Format(Round(d));
    FormatRoundTrip(Round(d));
  }

  /**
   * The sender of an affordable payment gets the nearest hundredth to
   * balance - amount, which is never negative; an unaffordable one is refused.
   * The sender case is checked first, so a payment to oneself is a debit.
   */
  lemma {:induction false} ApplyDebit(id: int, balance: string, p: Payment)
    requires id == p.from
    requires Parse(balance).Some? && Parse(p.amount).Some?
    ensures var b, a := Parse(balance).value, Parse(p.amount).value;
      && (Less(b, a) <==> Apply(id, balance, p) == Failure(NotEnoughFunds))
      && (!Less(b, a) ==>
            && Apply(id, balance, p).Success?
            && Parse(Apply(id, balance, p).value) == Some(Decimal(Round(Sub(b, a)), 2))
            && RoundsTo(Sub(b, a), Round(Sub(b, a)))
            && Round(Sub(b, a)) >= 0)
  {
    var b, a := Parse(balance).value, Parse(p.amount).value;
    if !Less(b, a) {
      var d := Sub(b, a);
      FormatRoundTrip(Round(d));
      RoundIsNearest(d);
      RoundNonNegative(d);
    }
  }

  /** The receiver gets the nearest hundredth to balance + amount. */
  lemma {:induction false} ApplyCredit(id: int, balance: string, p: Payment)
    requires id != p.from && id == p.to
    requires Parse(balance).Some? && Parse(p.amount).Some?
    ensures var b, a := Parse(balance).value, Parse(p.amount).value;
      && Apply(id, balance, p).Success?
      && Parse(Apply(id, balance, p).value) == Some(Decimal(Round(Add(b, a)), 2))
      && RoundsTo(Add(b, a), Round(Add(b, a)))
  {
    var d := Add(Parse(balance).value, Parse(p.amount).value);
    FormatRoundTrip(Round(d));
    RoundIsNearest(d);
  }

  /** A payment that names neither side of this account is refused. */
  lemma ApplyMismatch(id: int, balance: string, p: Payment)
    requires id != p.from && id != p.to
    requires Parse(balance).Some? && Parse(p.amount).Some?
    ensures Apply(id, balance, p) == Failure(MismatchPayment)
  {
  }

  /**
   * With balances and amount in whole hundredths, what the sender loses is
   * exactly the amount, and so is what the receiver gains.
   */
  lemma {:induction false} Conservation(sender: string, receiver: string, p: Payment)
    requires p.from != p.to
    requires Parse(sender).Some? && Parse(receiver).Some? && Parse(p.amount).Some?
    requires IsCents(Parse(sender).value) && IsCents(Parse(receiver).value) && IsCents(Parse(p.amount).value)
    requires Apply(p.from, sender, p).Success?
    ensures var s', r' := Apply(p.from, sender, p).value, Apply(p.to, receiver, p).value;
      && Parse(s').Some? && Parse(r').Some?
      && Cents(Parse(sender).value) - Parse(s').value.mant == Cents(Parse(p.amount).value)
      && Parse(r').value.mant - Cents(Parse(receiver).value) == Cents(Parse(p.amount).value)
  {
    var b1, b2, a := Parse(sender).value, Parse(receiver).value, Parse(p.amount).value;
    ApplyDebit(p.from, sender, p);
    ApplyCredit(p.to, receiver, p);
    SubCents(b1, a);
    AddCents(b2, a);
  }
}
