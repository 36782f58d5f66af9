/**
 * The service's test scenario replayed against the model: accounts 1 and 2
 * both hold 1000 and account 1 sends 500 to account 2. Without failures the
 * payment comes back and both balances are rewritten; with a failing insert,
 * the service as written keeps the new balances while the corrected one keeps
 * the old.
 */
module ServiceExamples {
  import opened Wrappers
  import opened Money
  import opened Errors
  import opened Times
  import opened Payments
  import opened Accounts
  import opened Storage
  import opened Transfer
  import opened Service
  import AccountExamples

  /** Both accounts of the scenario, created at t with the default balance. */
  function Accounts1000(t: Time): map<int, AccountRow>
  {
    map[1 := AccountRow(1, "1000", t), 2 := AccountRow(2, "1000", t)]
  }

  /** The scenario's store before the request: two accounts, no payments, no transaction. */
  function Before(t: Time): World
  {
    World(DbState(Snapshot(Accounts1000(t), []), None, []), 0)
  }

  const Request := PaymentRequest(1, 2, "500")

  /** The sender's 1000 less 500 is written as 500.00. */
  lemma SenderBalance(t: Time)
    ensures Apply(1, "1000", Payment(0, 1, 2, "500", t)) == Success("500.00")
  {
    SenderPremises();
    AccountExamples.DebitSameScale(1, "1000", Payment(0, 1, 2, "500", t), 1000, 500, 0, "500.00");
  }

  /** Premise of SenderBalance: the literal facts its general lemma needs, instantiated for the row's literals. */
  lemma SenderPremises()
    ensures AccountExamples.Row("1000", "500", 1000, 500, 0, (1000 - 500) * Pow10(2 - 0), "500.00")
  {
    assert Pow10(2) == 100;
    assert "500.00" == NatDigits(500) + ".00";
    FormatWhole(500);
    ScenarioParsePremises();
  }

  /** The receiver's 1000 plus 500 is written as 1500.00. */
  lemma ReceiverBalance(t: Time)
    ensures Apply(2, "1000", Payment(0, 1, 2, "500", t)) == Success("1500.00")
  {
    ReceiverPremises();
    assert Pow10(2 - 0) == 100;
    AccountExamples.CreditSameScale(2, "1000", Payment(0, 1, 2, "500", t), 1000, 500, 0, "1500.00");
  }

  /** Premise of ReceiverBalance: the literal facts its general lemma needs, instantiated for the row's literals. */
  lemma ReceiverPremises()
    ensures AccountExamples.Row("1000", "500", 1000, 500, 0, (1000 + 500) * Pow10(2 - 0), "1500.00")
  {
    assert Pow10(2) == 100;
    assert "1500.00" == NatDigits(1500) + ".00";
    FormatWhole(1500);
    ScenarioParsePremises();
  }

  /** Premise of the scenario lemmas: the parse facts the general lemmas need, instantiated for the scenario's literals. */
  lemma ScenarioParsePremises()
    ensures Parse("1000") == Some(Decimal(1000, 0)) && Parse("500") == Some(Decimal(500, 0))
  {
    assert "1000" == NatDigits(1000) && "500" == NatDigits(500);
    ParseNat(1000);
    ParseNat(500);
  }

  /** Both accounts exist, so neither is created, and both balances update. */
  lemma ScenarioUpdate(t: Time, at: nat -> Time, k: nat)
    ensures UpdatedAccounts(Accounts1000(t), Payment(0, 1, 2, "500", t), at, k)
         == Success([AccountRow(1, "500.00", t), AccountRow(2, "1500.00", t)])
  {
    var accounts := Accounts1000(t);
    RowsForPair(accounts, 1, 2);
    var rows := [AccountRow(1, "1000", t), AccountRow(2, "1000", t)];
    assert RowsFor(accounts, [1, 2]) == rows;
    assert rows[..1] == [AccountRow(1, "1000", t)];
    assert Pick(rows, 1) == Some(AccountRow(1, "1000", t));
    assert Pick(rows, 2) == Some(AccountRow(2, "1000", t));
    SenderBalance(t);
    ReceiverBalance(t);
  }

  /** Each account of the scenario is stored under its own id. */
  lemma ScenarioWellKeyed(t: Time)
    ensures WellKeyed(Accounts1000(t))
  {
  }

  /** The accounts after the transfer: only the balances change. */
  lemma ScenarioUpsert(t: Time)
    ensures UpsertAll(Accounts1000(t), [AccountRow(1, "500.00", t), AccountRow(2, "1500.00", t)])
         == map[1 := AccountRow(1, "500.00", t), 2 := AccountRow(2, "1500.00", t)]
  {
    UpsertPair(Accounts1000(t), AccountRow(1, "500.00", t), AccountRow(2, "1500.00", t));
  }

  /**
   * The service's normal response, from the service as written: the payment
   * is returned with id 0 and the clock's time, and the calls are begin, then
   * through the service's own store the fetch with the sender's id first, the
   * replace storing 500.00 and 1500.00 and the insert, and the commit.
   */
  lemma NormalResponse(t: Time, at: nat -> Time)
    requires at(0) == t
    ensures var (w', res) := ApplyPaymentSpec(Before(t), {}, Request, at, Db);
      var payment := Payment(0, 1, 2, "500", t);
      var stored := [AccountRow(1, "500.00", t), AccountRow(2, "1500.00", t)];
      && res == Success(payment)
      && w'.db.log == [BeginCall, GetAccountsCall(Db, [1, 2]), ReplaceAccountsCall(Db, stored),
                       InsertPaymentCall(Db, payment), CommitCall]
  {
    ScenarioRun(t, at);
  }

  /** After the normal response, as written, both new balances and the payment are committed, and the clock was read once. */
  lemma NormalResponseStores(t: Time, at: nat -> Time)
    requires at(0) == t
    ensures var w' := ApplyPaymentSpec(Before(t), {}, Request, at, Db).0;
      var stored := [AccountRow(1, "500.00", t), AccountRow(2, "1500.00", t)];
      && w'.db.committed == Snapshot(map[1 := stored[0], 2 := stored[1]], [Payment(0, 1, 2, "500", t)])
      && w'.calls == 1
  {
    ScenarioRun(t, at);
    ScenarioUpsert(t);
  }

  /** The scenario meets every condition of the happy path of the service as written. */
  lemma ScenarioRun(t: Time, at: nat -> Time)
    requires at(0) == t
    ensures var (w', res) := ApplyPaymentSpec(Before(t), {}, Request, at, Db);
      var payment := Payment(0, 1, 2, "500", t);
      var stored := [AccountRow(1, "500.00", t), AccountRow(2, "1500.00", t)];
      && res == Success(payment)
      && w'.db.log == [] + [BeginCall, GetAccountsCall(Db, [1, 2]), ReplaceAccountsCall(Db, stored),
                            InsertPaymentCall(Db, payment), CommitCall]
      && w'.db.committed == Snapshot(UpsertAll(Accounts1000(t), stored), [] + [payment])
      && w'.calls == 0 + 1
  {
    var stored := [AccountRow(1, "500.00", t), AccountRow(2, "1500.00", t)];
    ScenarioParsePremises();
    assert IsValidRequest(Request);
    ScenarioUpdate(t, at, 1);
    ScenarioWellKeyed(t);
    ApplyPaymentHappyPath(Before(t), Request, at, stored, Db);
  }


  /**
   * As written, with the insert failing: the request fails with an internal
   * error, yet account 1 is left at 500.00 and account 2 at 1500.00, with no
   * payment recorded.
   */
  lemma AsWrittenFailedInsert(t: Time, at: nat -> Time)
    requires at(0) == t
    ensures var (w', res) := ApplyPaymentSpec(Before(t), {OpInsertPayment}, Request, at, Db);
      && res == Failure(ServiceError(Internal, InsertPaymentFailed(StoreFailure(OpInsertPayment))))
      && w'.db.committed == Snapshot(map[1 := AccountRow(1, "500.00", t), 2 := AccountRow(2, "1500.00", t)], [])
      && w'.db.committed != Before(t).db.committed
  {
    ScenarioDbResult(t, at);
    ScenarioDbCommitted(t, at);
    ScenarioUpsert(t);
    assert Accounts1000(t)[1].balance != "500.00";
  }

  /** As written, the scenario's run with a failing insert reports that failure as an internal error. */
  lemma ScenarioDbResult(t: Time, at: nat -> Time)
    requires at(0) == t
    ensures ApplyPaymentSpec(Before(t), {OpInsertPayment}, Request, at, Db).1
         == Failure(ServiceError(Internal, InsertPaymentFailed(StoreFailure(OpInsertPayment))))
  {
    ScenarioDbRun(t, at);
    AsWrittenInsertFailureKeepsBalances(Before(t), {OpInsertPayment}, Request, at, [AccountRow(1, "500.00", t), AccountRow(2, "1500.00", t)]);
  }

  /** As written, the scenario's run with a failing insert leaves both new balances committed. */
  lemma ScenarioDbCommitted(t: Time, at: nat -> Time)
    requires at(0) == t
    ensures ApplyPaymentSpec(Before(t), {OpInsertPayment}, Request, at, Db).0.db.committed
         == Snapshot(UpsertAll(Accounts1000(t), [AccountRow(1, "500.00", t), AccountRow(2, "1500.00", t)]), [])
  {
    ScenarioDbRun(t, at);
    AsWrittenInsertFailureKeepsBalances(Before(t), {OpInsertPayment}, Request, at, [AccountRow(1, "500.00", t), AccountRow(2, "1500.00", t)]);
  }

  /** The scenario's request is valid, only its insert fails, and both its balances update. */
  lemma ScenarioDbRun(t: Time, at: nat -> Time)
    requires at(0) == t
    ensures InsertFailsAfterUpdate(Before(t), {OpInsertPayment}, Request, at, [AccountRow(1, "500.00", t), AccountRow(2, "1500.00", t)])
  {
    ScenarioDbUpdate(t, at);
  }

  /** The scenario's request is valid and both its balances update. */
  lemma ScenarioDbUpdate(t: Time, at: nat -> Time)
    requires at(0) == t
    ensures IsValidRequest(Request)
    ensures UpdatedAccounts(Before(t).db.committed.accounts, ToPayment(Request, at(Before(t).calls)), at, Before(t).calls + 1)
         == Success([AccountRow(1, "500.00", t), AccountRow(2, "1500.00", t)])
  {
    ScenarioParsePremises();
    ScenarioUpdate(t, at, 1);
  }


  /** Corrected, with the same failing insert: the request fails and both accounts keep 1000. */
  lemma CorrectedFailedInsert(t: Time, at: nat -> Time)
    requires at(0) == t
    ensures var (w', res) := ApplyPaymentSpec(Before(t), {OpInsertPayment}, Request, at, Tx);
      && res.Failure?
      && w'.db.committed == Before(t).db.committed
  {
    ApplyPaymentAtomic(Before(t), {OpInsertPayment}, Request, at);
  }
}
