/**
 * The account package's test table, replayed against the model: each lemma is
 * one row of it, and the conservation counterexample shows what rounding does
 * to an amount with a third fractional digit. Every row goes through the
 * general lemmas about two amounts at one scale (DebitSameScale,
 * CreditSameScale); what its literal texts parse to and how its result is
 * written come from the general lemmas about NatDigits, in a lemma beside it.
 */
module AccountExamples {
  import opened Wrappers
  import opened Money
  import opened Errors
  import opened Times
  import opened Payments
  import opened Accounts

  /**
   * A row of the table at one scale: balance and amount parse to mb and ma
   * with k fractional digits, at most two, and text is how Format writes the
   * result r, in hundredths.
   */
  predicate Row(balance: string, amount: string, mb: int, ma: int, k: nat, r: int, text: string)
  {
    && Parse(balance) == Some(Decimal(mb, k)) && Parse(amount) == Some(Decimal(ma, k)) && k <= 2
    && Format(r) == text
  }

  /**
   * A debit of the sender by an amount with as many fractional digits as the
   * balance: refused exactly when the amount is larger, otherwise the
   * difference in hundredths.
   */
  lemma DebitSameScale(id: int, balance: string, p: Payment, mb: int, ma: int, k: nat, text: string)
    requires id == p.from
    requires k <= 2 && Row(balance, p.amount, mb, ma, k, (mb - ma) * Pow10(2 - k), text)
    ensures Apply(id, balance, p) == if mb < ma then Failure(NotEnoughFunds) else Success(text)
  {
    var b, a := Decimal(mb, k), Decimal(ma, k);
    SameScale(mb, ma, k);
    if mb < ma {
      assert Less(b, a);
    } else {
      RoundAtScale(mb - ma, k);
      assert StringFixed2(Sub(b, a)) == text;
    }
  }

  /** The credit counterpart of DebitSameScale: the receiver gets the sum in hundredths. */
  lemma CreditSameScale(id: int, balance: string, p: Payment, mb: int, ma: int, k: nat, text: string)
    requires id != p.from && id == p.to
    requires k <= 2 && Row(balance, p.amount, mb, ma, k, (mb + ma) * Pow10(2 - k), text)
    ensures Apply(id, balance, p) == Success(text)
  {
    SameScale(mb, ma, k);
    RoundAtScale(mb + ma, k);
  }

  /** Two amounts at the same scale compare, add and subtract by their mantissas. */
  lemma SameScale(x: int, y: int, k: nat)
    ensures Less(Decimal(x, k), Decimal(y, k)) <==> x < y
    ensures Add(Decimal(x, k), Decimal(y, k)) == Decimal(x + y, k)
    ensures Sub(Decimal(x, k), Decimal(y, k)) == Decimal(x - y, k)
  {
    assert Pow10(0) == 1;
  }

  /** With at most two fractional digits, rounding only rescales to hundredths. */
  lemma RoundAtScale(m: int, k: nat)
    requires k <= 2
    ensures Round(Decimal(m, k)) == m * Pow10(2 - k)
  {
  }

  /** The text w.f, with one fractional digit f, is 10 * w + f tenths. */
  lemma TenthsParse(w: nat, f: nat)
    requires f < 10
    ensures Parse(NatDigits(w) + "." + NatDigits(f)) == Some(Decimal(10 * w + f, 1))
  {
    ParseNatFraction(w, f);
    assert NatDigits(f) == [DigitChar(f)];
    assert Pow10(1) == 10;
    assert w * Pow10(|NatDigits(f)|) == 10 * w;
  }

  /** The text w.f, with two fractional digits f not starting with zero, is 100 * w + f hundredths. */
  lemma HundredthsParse(w: nat, f: nat)
    requires 10 <= f < 100
    ensures Parse(NatDigits(w) + "." + NatDigits(f)) == Some(Decimal(100 * w + f, 2))
  {
    ParseNatFraction(w, f);
    assert NatDigits(f / 10) == [DigitChar(f / 10)];
    assert NatDigits(f) == [DigitChar(f / 10), DigitChar(f % 10)];
    assert Pow10(2) == 100;
    assert w * Pow10(|NatDigits(f)|) == 100 * w;
  }

  /** "from: normal response": 1000 - 501 leaves "499.00". */
  lemma DebitNormal(t: Time)
    ensures Apply(1, "1000", Payment(0, 1, 2, "501", t)) == Success("499.00")
  {
    DebitNormalPremises();
    DebitSameScale(1, "1000", Payment(0, 1, 2, "501", t), 1000, 501, 0, "499.00");
  }

  /** Premise of DebitNormal: the literal facts its general lemma needs, instantiated for the row's literals. */
  lemma DebitNormalPremises()
    ensures Row("1000", "501", 1000, 501, 0, (1000 - 501) * Pow10(2 - 0), "499.00")
  {
    assert Pow10(2) == 100;
    assert "499.00" == NatDigits(499) + ".00";
    FormatWhole(499);
    NormalParsePremises();
  }

  /** Premise of DebitNormal and CreditNormal: the parse facts their general lemmas need, instantiated for the rows' literals. */
  lemma NormalParsePremises()
    ensures Parse("1000") == Some(Decimal(1000, 0)) && Parse("501") == Some(Decimal(501, 0))
  {
    assert "1000" == NatDigits(1000) && "501" == NatDigits(501);
    ParseNat(1000);
    ParseNat(501);
  }

  /** "from: not enough funds": 1001 cannot be taken from 1000. */
  lemma DebitNotEnoughFunds(t: Time)
    ensures Apply(1, "1000", Payment(0, 1, 2, "1001", t)) == Failure(NotEnoughFunds)
  {
    DebitNotEnoughFundsPremises();
    DebitSameScale(1, "1000", Payment(0, 1, 2, "1001", t), 1000, 1001, 0, Format(-100));
  }

  /** Premise of DebitNotEnoughFunds: the literal facts its general lemma needs, instantiated for the row's literals. */
  lemma DebitNotEnoughFundsPremises()
    ensures Row("1000", "1001", 1000, 1001, 0, (1000 - 1001) * Pow10(2 - 0), Format(-100))
  {
    assert Pow10(2) == 100;
    assert "1000" == NatDigits(1000) && "1001" == NatDigits(1001);
    ParseNat(1000);
    ParseNat(1001);
  }

  /** "from: use all balance": an amount equal to the balance leaves "0.00". */
  lemma DebitWholeBalance(t: Time)
    ensures Apply(1, "1000", Payment(0, 1, 2, "1000", t)) == Success("0.00")
  {
    DebitWholeBalancePremises();
    DebitSameScale(1, "1000", Payment(0, 1, 2, "1000", t), 1000, 1000, 0, "0.00");
  }

  /** Premise of DebitWholeBalance: the literal facts its general lemma needs, instantiated for the row's literals. */
  lemma DebitWholeBalancePremises()
    ensures Row("1000", "1000", 1000, 1000, 0, (1000 - 1000) * Pow10(2 - 0), "0.00")
  {
    assert "0.00" == NatDigits(0) + ".00";
    FormatWhole(0);
    assert "1000" == NatDigits(1000);
    ParseNat(1000);
  }

  /** "from: test rounding": 1000.6 - 100.8 leaves "899.80". */
  lemma DebitFraction(t: Time)
    ensures Apply(1, "1000.6", Payment(0, 1, 2, "100.8", t)) == Success("899.80")
  {
    DebitFractionPremises();
    DebitSameScale(1, "1000.6", Payment(0, 1, 2, "100.8", t), 10006, 1008, 1, "899.80");
  }

  /** Premise of DebitFraction: the literal facts its general lemma needs, instantiated for the row's literals. */
  lemma DebitFractionPremises()
    ensures Row("1000.6", "100.8", 10006, 1008, 1, (10006 - 1008) * Pow10(2 - 1), "899.80")
  {
    assert Pow10(1) == 10;
    assert Format(89980) == "899.80";
    DebitFractionParsePremises();
  }

  /** Premise of DebitFraction: the parse facts its general lemma needs, instantiated for the row's literals. */
  lemma DebitFractionParsePremises()
    ensures Parse("1000.6") == Some(Decimal(10006, 1)) && Parse("100.8") == Some(Decimal(1008, 1))
  {
    assert "1000.6" == NatDigits(1000) + "." + NatDigits(6);
    assert "100.8" == NatDigits(100) + "." + NatDigits(8);
    TenthsParse(1000, 6);
    TenthsParse(100, 8);
  }

  /** "to: normal response": 1000 + 501 gives "1501.00". */
  lemma CreditNormal(t: Time)
    ensures Apply(1, "1000", Payment(0, 2, 1, "501", t)) == Success("1501.00")
  {
    CreditNormalPremises();
    CreditSameScale(1, "1000", Payment(0, 2, 1, "501", t), 1000, 501, 0, "1501.00");
  }

  /** Premise of CreditNormal: the literal facts its general lemma needs, instantiated for the row's literals. */
  lemma CreditNormalPremises()
    ensures Row("1000", "501", 1000, 501, 0, (1000 + 501) * Pow10(2 - 0), "1501.00")
  {
    assert Pow10(2) == 100;
    assert "1501.00" == NatDigits(1501) + ".00";
    FormatWhole(1501);
    NormalParsePremises();
  }

  /** "to: initial zero balance": 0 + 501 gives "501.00". */
  lemma CreditFromZero(t: Time)
    ensures Apply(1, "0", Payment(0, 2, 1, "501", t)) == Success("501.00")
  {
    CreditFromZeroPremises();
    CreditSameScale(1, "0", Payment(0, 2, 1, "501", t), 0, 501, 0, "501.00");
  }

  /** Premise of CreditFromZero: the literal facts its general lemma needs, instantiated for the row's literals. */
  lemma CreditFromZeroPremises()
    ensures Row("0", "501", 0, 501, 0, (0 + 501) * Pow10(2 - 0), "501.00")
  {
    assert Pow10(2) == 100;
    assert "501.00" == NatDigits(501) + ".00";
    FormatWhole(501);
    assert "0" == NatDigits(0) && "501" == NatDigits(501);
    ParseNat(0);
    ParseNat(501);
  }

  /** "to: with cents": 10.1 + 15.9 gives "26.00". */
  lemma CreditTenths(t: Time)
    ensures Apply(1, "10.1", Payment(0, 2, 1, "15.9", t)) == Success("26.00")
  {
    CreditTenthsPremises();
    CreditSameScale(1, "10.1", Payment(0, 2, 1, "15.9", t), 101, 159, 1, "26.00");
  }

  /** Premise of CreditTenths: the literal facts its general lemma needs, instantiated for the row's literals. */
  lemma CreditTenthsPremises()
    ensures Row("10.1", "15.9", 101, 159, 1, (101 + 159) * Pow10(2 - 1), "26.00")
  {
    assert Pow10(1) == 10;
    assert "26.00" == NatDigits(26) + ".00";
    FormatWhole(26);
    CreditTenthsParsePremises();
  }

  /** Premise of CreditTenths: the parse facts its general lemma needs, instantiated for the row's literals. */
  lemma CreditTenthsParsePremises()
    ensures Parse("10.1") == Some(Decimal(101, 1)) && Parse("15.9") == Some(Decimal(159, 1))
  {
    assert "10.1" == NatDigits(10) + "." + NatDigits(1);
    assert "15.9" == NatDigits(15) + "." + NatDigits(9);
    TenthsParse(10, 1);
    TenthsParse(15, 9);
  }

  /** "to: test rounding": 10.13 + 15.98 gives "26.11". */
  lemma CreditHundredths(t: Time)
    ensures Apply(1, "10.13", Payment(0, 2, 1, "15.98", t)) == Success("26.11")
  {
    CreditHundredthsPremises();
    CreditSameScale(1, "10.13", Payment(0, 2, 1, "15.98", t), 1013, 1598, 2, "26.11");
  }

  /** Premise of CreditHundredths: the literal facts its general lemma needs, instantiated for the row's literals. */
  lemma CreditHundredthsPremises()
    ensures Row("10.13", "15.98", 1013, 1598, 2, (1013 + 1598) * Pow10(2 - 2), "26.11")
  {
    assert Pow10(0) == 1;
    assert Format(2611) == "26.11";
    CreditHundredthsParsePremises();
  }

  /** Premise of CreditHundredths: the parse facts its general lemma needs, instantiated for the row's literals. */
  lemma CreditHundredthsParsePremises()
    ensures Parse("10.13") == Some(Decimal(1013, 2)) && Parse("15.98") == Some(Decimal(1598, 2))
  {
    assert "10.13" == NatDigits(10) + "." + NatDigits(13);
    assert "15.98" == NatDigits(15) + "." + NatDigits(98);
    HundredthsParse(10, 13);
    HundredthsParse(15, 98);
  }

  /** "invalid format of balance" and "invalid format of amount": the balance's error wins. */
  lemma MalformedTexts(t: Time)
    ensures Apply(1, "10,1", Payment(0, 2, 1, "1,1", t)) == Failure(DecimalError("10,1"))
    ensures Apply(1, "10.1", Payment(0, 2, 1, "1,1", t)) == Failure(DecimalError("1,1"))
  {
    ParseRejectsComma("10,1", 2);
    ParseRejectsComma("1,1", 1);
    assert "10.1" == NatDigits(10) + "." + NatDigits(1);
    TenthsParse(10, 1);
  }

  /**
   * With a third fractional digit conservation fails: 0.125 taken from 1
   * leaves "0.88" (0.875 rounds up) while 0 + 0.125 gives "0.13" (0.125 rounds
   * up too), so a hundredth is created.
   */
  lemma ThirdDigitBreaksConservation(t: Time)
    ensures Apply(1, "1", Payment(0, 1, 2, "0.125", t)) == Success("0.88")
    ensures Apply(1, "0", Payment(0, 2, 1, "0.125", t)) == Success("0.13")
  {
    ThirdDigitParsePremises();
    ThirdDigitDebit();
    ThirdDigitCredit();
  }

  /** Premise of ThirdDigitBreaksConservation: the parse and format facts it needs, from the general lemmas, for its literals. */
  lemma ThirdDigitParsePremises()
    ensures Parse("1") == Some(Decimal(1, 0)) && Parse("0") == Some(Decimal(0, 0))
    ensures Parse("0.125") == Some(Decimal(125, 3))
    ensures Format(88) == "0.88" && Format(13) == "0.13"
  {
    assert "1" == NatDigits(1) && "0" == NatDigits(0);
    ParseNat(1);
    ParseNat(0);
    ThirdDigitValue();
    assert Format(88) == "0.88";
    assert Format(13) == "0.13";
  }

  lemma ThirdDigitValue()
    ensures Parse("0.125") == Some(Decimal(125, 3))
  {
    assert "0.125" == NatDigits(0) + "." + NatDigits(125) && |NatDigits(125)| == 3;
    ParseNatFraction(0, 125);
    Pow10Three();
  }

  /** 1 - 0.125 = 0.875, which rounds half away from zero to 88 hundredths. */
  lemma ThirdDigitDebit()
    ensures !Less(Decimal(1, 0), Decimal(125, 3))
    ensures Round(Sub(Decimal(1, 0), Decimal(125, 3))) == 88
  {
    Pow10Three();
    assert Scaled(Decimal(1, 0), 3) == 1000;
    assert Scaled(Decimal(125, 3), 3) == 125 by {
      assert Pow10(0) == 1;
    }
    assert Sub(Decimal(1, 0), Decimal(125, 3)) == Decimal(875, 3);
    assert Pow10(1) == 10;
    assert SignedRound(875, 10) == 88;
  }

  /** 0 + 0.125 = 0.125, which rounds half away from zero to 13 hundredths. */
  lemma ThirdDigitCredit()
    ensures Round(Add(Decimal(0, 0), Decimal(125, 3))) == 13
  {
    assert Scaled(Decimal(0, 0), 3) == 0;
    assert Scaled(Decimal(125, 3), 3) == 125 by {
      assert Pow10(0) == 1;
    }
    assert Add(Decimal(0, 0), Decimal(125, 3)) == Decimal(125, 3);
    assert Pow10(1) == 10;
    assert SignedRound(125, 10) == 13;
  }

  lemma Pow10Three()
    ensures Pow10(3) == 1000
  {
    assert Pow10(1) == 10;
    assert Pow10(2) == 100;
  }
}
