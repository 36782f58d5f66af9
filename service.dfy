/**
 * The wallet service: apply a payment request inside a transaction, read one
 * account, list an account's payments. Every failure is classified as a bad
 * request, a missing account, or an internal error.
 */
module Service {
  import opened Wrappers
  import opened Errors
  import opened Times
  import opened Payments
  import opened Accounts
  import opened Storage
  import opened Transfer
  import opened Transactional

  /**
   * Applying r: an invalid request is refused before anything else happens;
   * otherwise the clock is read once, the payment is built at that time and the
   * transfer body runs in a transaction, its store calls going through h.
   */
  function ApplyPaymentSpec(w: World, faults: set<StoreOp>, r: PaymentRequest, at: nat -> Time, h: Handle): (World, Result<Payment, Error>)
  {
    match ValidatePaymentRequest(r)
    case Some(e) => (w, Failure(ServiceError(BadRequest, PaymentInvalid(e))))
    case None =>
      var payment := ToPayment(r, at(w.calls));
      var (w', err) := ExecTxSpec(World(w.db, w.calls + 1), faults, Body(TransferCallback(payment, h), faults, at));
      (w', if err.Some? then Failure(err.value) else Success(payment))
  }

  /** Reading account id from the committed data, once the id is known to be valid. */
  function GetAccountSpec(db: DbState, faults: set<StoreOp>, id: int): (DbState, Result<AccountRow, Error>)
  {
    if ValidateAccountID(id).Some? then (db, Failure(ServiceError(BadRequest, InvalidAccountId(id))))
    else
      var (db', r) := GetAccountStep(db, faults, Db, id);
      match r
      case Success(a) => (db', Success(a))
      case Failure(e) =>
        (db', Failure(if e == AccountNotFound then ServiceError(NotFound, NoSuchAccount(id))
                      else ServiceError(Internal, GetAccountFailed(e))))
  }

  /** Listing the payments of account id, once the id is known to be valid. */
  function GetPaymentsSpec(db: DbState, faults: set<StoreOp>, id: int): (DbState, Result<seq<Payment>, Error>)
  {
    if ValidateAccountID(id).Some? then (db, Failure(ServiceError(BadRequest, InvalidAccountId(id))))
    else
      var (db', r) := GetPaymentsStep(db, faults, Db, id);
      match r
      case Success(ps) => (db', Success(ps))
      case Failure(e) => (db', Failure(ServiceError(Internal, GetPaymentsFailed(e))))
  }

  /** A valid request's outcome is the transaction's, with the payment returned on success. */
  lemma ValidRequestRunsTx(w: World, faults: set<StoreOp>, r: PaymentRequest, at: nat -> Time, h: Handle)
    requires IsValidRequest(r)
    ensures var payment := ToPayment(r, at(w.calls));
      var x := ExecTxSpec(World(w.db, w.calls + 1), faults, Body(TransferCallback(payment, h), faults, at));
      ApplyPaymentSpec(w, faults, r, at, h) == (x.0, if x.1.Some? then Failure(x.1.value) else Success(payment))
  {
    var v := ValidatePaymentRequest(r);
    assert v.None?;
  }

  // ------------------------------------------------------------ the code

  class WalletService {
    const store: MemStore
    const clock: Clock

    constructor (store: MemStore, clock: Clock)
      ensures this.store == store && this.clock == clock
    {
      this.store := store;
      this.clock := clock;
    }

    /**
     * Applies a payment request inside a transaction; the transfer body's store
     * calls go through h: Db as the code is written, Tx for a body that works
     * inside the transaction.
     */
    method ApplyPayment(r: PaymentRequest, h: Handle) returns (res: Result<Payment, Error>)
      modifies store, clock
      ensures (World(store.st, clock.calls), res)
           == ApplyPaymentSpec(World(old(store.st), old(clock.calls)), store.faults, r, clock.at, h)
    {
      var e := ValidatePaymentRequest(r);
      if e.Some? {
        return Failure(ServiceError(BadRequest, PaymentInvalid(e.value)));
      }
      ghost var w := World(store.st, clock.calls);
      ValidRequestRunsTx(w, store.faults, r, clock.at, h);
      var t := clock.Now();
      var payment := ToPayment(r, t);
      assert World(store.st, clock.calls) == World(w.db, w.calls + 1);
      assert payment == ToPayment(r, clock.at(w.calls));
      var err := ExecTx(store, clock, TransferCallback(payment, h));
      assert (World(store.st, clock.calls), err)
          == ExecTxSpec(World(w.db, w.calls + 1), store.faults, Body(TransferCallback(payment, h), store.faults, clock.at));
      if err.Some? {
        return Failure(err.value);
      }
      return Success(payment);
    }

    /** The account with the given id, read outside any transaction. */
    method GetAccount(id: int) returns (a: Account?, err: Option<Error>)
      modifies store
      ensures var (db', r) := GetAccountSpec(old(store.st), store.faults, id);
        && store.st == db'
        && (r.Success? ==> err.None? && a != null && fresh(a) && a.Row() == r.value)
        && (r.Failure? ==> err == Some(r.error) && a == null)
    {
      var e := ValidateAccountID(id);
      if e.Some? {
        return null, Some(ServiceError(BadRequest, InvalidAccountId(id)));
      }
      a, err := store.GetAccount(Db, id);
      if err.Some? {
        var cause := err.value;
        if cause == AccountNotFound {
          return null, Some(ServiceError(NotFound, NoSuchAccount(id)));
        }
        return null, Some(ServiceError(Internal, GetAccountFailed(cause)));
      }
    }

    /** The payments the account sent or received, read outside any transaction. */
    method GetPayments(id: int) returns (payments: seq<Payment>, err: Option<Error>)
      modifies store
      ensures var (db', r) := GetPaymentsSpec(old(store.st), store.faults, id);
        && store.st == db'
        && (r.Success? ==> err.None? && payments == r.value)
        && (r.Failure? ==> err == Some(r.error) && payments == [])
    {
      var e := ValidateAccountID(id);
      if e.Some? {
        return [], Some(ServiceError(BadRequest, InvalidAccountId(id)));
      }
      payments, err := store.GetPayments(Db, id);
      if err.Some? {
        return [], Some(ServiceError(Internal, GetPaymentsFailed(err.value)));
      }
    }
  }

  // ------------------------------------------------------------ properties

  /** An invalid request is a bad request and touches neither the store nor the clock. */
  lemma InvalidRequestRejected(w: World, faults: set<StoreOp>, r: PaymentRequest, at: nat -> Time, h: Handle)
    requires !IsValidRequest(r)
    ensures ApplyPaymentSpec(w, faults, r, at, h)
         == (w, Failure(ServiceError(BadRequest, PaymentInvalid(ValidatePaymentRequest(r).value))))
  {
  }

  /**
   * Applying a payment is all or nothing: it succeeds exactly when the request
   * is valid, both balances update and no store call fails; it then returns the
   * payment built from the request at the clock's first reading and commits the
   * two updated accounts and the payment. On any failure the committed data is
   * as it was.
   */
  lemma {:induction false} ApplyPaymentAtomic(w: World, faults: set<StoreOp>, r: PaymentRequest, at: nat -> Time)
    ensures var (w', res) := ApplyPaymentSpec(w, faults, r, at, Tx);
      var c := w.db.committed;
      var payment := ToPayment(r, at(w.calls));
      var upd := UpdatedAccounts(c.accounts, payment, at, w.calls + 1);
      && (res.Success? <==>
            && IsValidRequest(r) && upd.Success?
            && OpBegin !in faults && OpGetAccounts !in faults && OpReplaceAccounts !in faults
            && OpInsertPayment !in faults && OpCommit !in faults)
      && (res.Success? ==>
            && res.value == payment && IsValidPayment(payment)
            && w'.db.committed == Snapshot(UpsertAll(c.accounts, upd.value), c.payments + [payment]))
      && (res.Failure? ==> w'.db.committed == c)
  {
    if IsValidRequest(r) {
      TxTransferAtomic(World(w.db, w.calls + 1), faults, ToPayment(r, at(w.calls)), at);
      ValidRequestRunsTx(w, faults, r, at, Tx);
    } else {
      InvalidRequestRejected(w, faults, r, at, Tx);
    }
  }

  /**
   * Whatever handle the body uses, the service as written included, a payment
   * succeeds exactly when the request is valid, both balances update and no
   * store call fails; it then returns the payment built from the request at
   * the clock's first reading and commits the two updated accounts and the
   * payment.
   */
  lemma {:induction false} ApplyPaymentSucceeds(w: World, faults: set<StoreOp>, r: PaymentRequest, at: nat -> Time, h: Handle)
    ensures var (w', res) := ApplyPaymentSpec(w, faults, r, at, h);
      var c := w.db.committed;
      var payment := ToPayment(r, at(w.calls));
      var upd := UpdatedAccounts(c.accounts, payment, at, w.calls + 1);
      && (res.Success? <==>
            && IsValidRequest(r) && upd.Success?
            && OpBegin !in faults && OpGetAccounts !in faults && OpReplaceAccounts !in faults
            && OpInsertPayment !in faults && OpCommit !in faults)
      && (res.Success? ==>
            && res.value == payment && IsValidPayment(payment)
            && w'.db.committed == Snapshot(UpsertAll(c.accounts, upd.value), c.payments + [payment]))
  {
    if IsValidRequest(r) {
      var w0 := World(w.db, w.calls + 1);
      var payment := ToPayment(r, at(w.calls));
      if h == Tx {
        TxTransferAtomic(w0, faults, payment, at);
      } else {
        DbTransferSucceeds(w0, faults, payment, at);
      }
      ValidRequestRunsTx(w, faults, r, at, h);
    } else {
      InvalidRequestRejected(w, faults, r, at, h);
    }
  }

  /**
   * The calls a successful payment makes, in order: begin, one fetch of both
   * accounts, the replace of the updated pair, the insert of the payment, and
   * the commit, the three in between through h.
   */
  lemma {:induction false} ApplyPaymentCalls(w: World, faults: set<StoreOp>, r: PaymentRequest, at: nat -> Time, h: Handle)
    requires ApplyPaymentSpec(w, faults, r, at, h).1.Success?
    ensures var w' := ApplyPaymentSpec(w, faults, r, at, h).0;
      var payment := ToPayment(r, at(w.calls));
      var upd := UpdatedAccounts(w.db.committed.accounts, payment, at, w.calls + 1);
      && upd.Success?
      && w'.db.log == w.db.log + [BeginCall, GetAccountsCall(h, [r.from, r.to]),
                                  ReplaceAccountsCall(h, upd.value), InsertPaymentCall(h, payment), CommitCall]
  {
    ApplyPaymentSucceeds(w, faults, r, at, h);
    ValidRequestRunsTx(w, faults, r, at, h);
    TransferCalls(World(w.db, w.calls + 1), faults, h, ToPayment(r, at(w.calls)), at);
  }

  /**
   * Applying a valid request reads the clock once for the payment and once
   * more for each of its two accounts the store does not hold yet, whatever
   * the handle, as long as the transaction opens and the fetch succeeds.
   */
  lemma {:induction false} ApplyPaymentClockReads(w: World, faults: set<StoreOp>, r: PaymentRequest, at: nat -> Time, h: Handle)
    requires IsValidRequest(r) && OpBegin !in faults && OpGetAccounts !in faults
    requires WellKeyed(w.db.committed.accounts)
    ensures var accounts := w.db.committed.accounts;
      ApplyPaymentSpec(w, faults, r, at, h).0.calls
        == w.calls + 1 + (if r.from in accounts then 0 else 1) + (if r.to in accounts then 0 else 1)
  {
    var payment := ToPayment(r, at(w.calls));
    var fn := Body(TransferCallback(payment, h), faults, at);
    var w0 := World(w.db, w.calls + 1);
    ValidRequestRunsTx(w, faults, r, at, h);
    ExecTxOutcome(w0, faults, fn);
    var db1 := BeginStep(w.db, faults).0;
    assert View(db1, h) == Some(w.db.committed);
    ClockReadPerCreatedAccount(World(db1, w.calls + 1), faults, h, payment, at);
  }

  /**
   * A valid request between two stored accounts, whose balances update to
   * stored, with no store failure, whichever handle the body uses: the payment
   * comes back, the five calls are made in order, both accounts and the
   * payment are committed, and the clock is read once.
   */
  lemma {:induction false} ApplyPaymentHappyPath(w: World, r: PaymentRequest, at: nat -> Time, stored: seq<AccountRow>, h: Handle)
    requires IsValidRequest(r) && WellKeyed(w.db.committed.accounts)
    requires r.from in w.db.committed.accounts && r.to in w.db.committed.accounts
    requires UpdatedAccounts(w.db.committed.accounts, ToPayment(r, at(w.calls)), at, w.calls + 1) == Success(stored)
    ensures var (w', res) := ApplyPaymentSpec(w, {}, r, at, h);
      var payment := ToPayment(r, at(w.calls));
      && res == Success(payment)
      && w'.db.log == w.db.log + [BeginCall, GetAccountsCall(h, [r.from, r.to]),
                                  ReplaceAccountsCall(h, stored), InsertPaymentCall(h, payment), CommitCall]
      && w'.db.committed == Snapshot(UpsertAll(w.db.committed.accounts, stored), w.db.committed.payments + [payment])
      && w'.calls == w.calls + 1
  {
    ApplyPaymentSucceeds(w, {}, r, at, h);
    ApplyPaymentCalls(w, {}, r, at, h);
    ApplyPaymentClockReads(w, {}, r, at, h);
  }

  /**
   * The conditions of the as-written failed insert: a valid request, a store
   * on which only recording the payment fails, and fetched accounts whose
   * balances update to stored.
   */
  predicate InsertFailsAfterUpdate(w: World, faults: set<StoreOp>, r: PaymentRequest, at: nat -> Time, stored: seq<AccountRow>)
  {
    && IsValidRequest(r)
    && OpBegin !in faults && OpGetAccounts !in faults && OpReplaceAccounts !in faults && OpRollback !in faults
    && OpInsertPayment in faults
    && UpdatedAccounts(w.db.committed.accounts, ToPayment(r, at(w.calls)), at, w.calls + 1) == Success(stored)
  }

  /**
   * The service as written runs the body through Db: when recording the
   * payment fails, the request fails, yet both updated accounts stay committed.
   */
  lemma {:induction false} AsWrittenInsertFailureKeepsBalances(w: World, faults: set<StoreOp>, r: PaymentRequest, at: nat -> Time, stored: seq<AccountRow>)
    requires InsertFailsAfterUpdate(w, faults, r, at, stored)
    ensures var (w', res) := ApplyPaymentSpec(w, faults, r, at, Db);
      var c := w.db.committed;
      && res == Failure(ServiceError(Internal, InsertPaymentFailed(StoreFailure(OpInsertPayment))))
      && w'.db.committed == Snapshot(UpsertAll(c.accounts, stored), c.payments)
  {
    DbTransferNotAtomic(World(w.db, w.calls + 1), faults, ToPayment(r, at(w.calls)), at);
    ValidRequestRunsTx(w, faults, r, at, Db);
  }

  /**
   * After a successful payment both accounts hold their updated balances: the
   * sender's and the receiver's new rows are what reading them returns.
   */
  lemma {:induction false} AppliedBalancesAreRead(w: World, faults: set<StoreOp>, r: PaymentRequest, at: nat -> Time, h: Handle, readFaults: set<StoreOp>)
    requires ApplyPaymentSpec(w, faults, r, at, h).1.Success?
    requires OpGetAccount !in readFaults
    ensures var w' := ApplyPaymentSpec(w, faults, r, at, h).0;
      var payment := ToPayment(r, at(w.calls));
      var upd := UpdatedAccounts(w.db.committed.accounts, payment, at, w.calls + 1).value;
      && |upd| == 2
      && GetAccountSpec(w'.db, readFaults, r.from).1.Success?
      && GetAccountSpec(w'.db, readFaults, r.from).1.value.balance == upd[0].balance
      && GetAccountSpec(w'.db, readFaults, r.to).1.Success?
      && GetAccountSpec(w'.db, readFaults, r.to).1.value.balance == upd[1].balance
  {
    ApplyPaymentSucceeds(w, faults, r, at, h);
    var payment := ToPayment(r, at(w.calls));
    var c := w.db.committed;
    var upd := UpdatedAccounts(c.accounts, payment, at, w.calls + 1).value;
    UpdatedIds(c.accounts, payment, at, w.calls + 1);
    UpsertPair(c.accounts, upd[0], upd[1]);
    assert upd == [upd[0], upd[1]];
    var db' := ApplyPaymentSpec(w, faults, r, at, h).0.db;
    assert db'.committed.accounts == UpsertAll(c.accounts, upd);
    ReadsStoredBalance(db', readFaults, upd[0]);
    ReadsStoredBalance(db', readFaults, upd[1]);
  }

  /** Reading a committed account with a valid id returns its stored balance. */
  lemma ReadsStoredBalance(db: DbState, faults: set<StoreOp>, row: AccountRow)
    requires OpGetAccount !in faults && row.id > 0
    requires row.id in db.committed.accounts && db.committed.accounts[row.id].balance == row.balance
    ensures GetAccountSpec(db, faults, row.id).1.Success?
    ensures GetAccountSpec(db, faults, row.id).1.value.balance == row.balance
  {
  }

  /** After a successful payment, listing either account's payments shows it, last. */
  lemma {:induction false} AppliedPaymentIsListed(w: World, faults: set<StoreOp>, r: PaymentRequest, at: nat -> Time, h: Handle, readFaults: set<StoreOp>, id: int)
    requires ApplyPaymentSpec(w, faults, r, at, h).1.Success?
    requires OpGetPayments !in readFaults
    requires id == r.from || id == r.to
    ensures var (w', res) := ApplyPaymentSpec(w, faults, r, at, h);
      var listed := GetPaymentsSpec(w'.db, readFaults, id).1;
      && listed.Success? && |listed.value| > 0
      && listed.value[|listed.value| - 1] == res.value
      && listed.value[..|listed.value| - 1] == PaymentsFor(w.db.committed.payments, id)
  {
    ApplyPaymentSucceeds(w, faults, r, at, h);
    var payment := ToPayment(r, at(w.calls));
    var db' := ApplyPaymentSpec(w, faults, r, at, h).0.db;
    assert db'.committed.payments == w.db.committed.payments + [payment];
    ListsAppendedPayment(db', readFaults, id, w.db.committed.payments, payment);
  }

  /** Listing a valid id involved in the last recorded payment ends with that payment. */
  lemma ListsAppendedPayment(db: DbState, faults: set<StoreOp>, id: int, ps: seq<Payment>, p: Payment)
    requires OpGetPayments !in faults && id > 0 && (id == p.from || id == p.to)
    requires db.committed.payments == ps + [p]
    ensures var listed := GetPaymentsSpec(db, faults, id).1;
      && listed.Success? && |listed.value| > 0
      && listed.value[|listed.value| - 1] == p
      && listed.value[..|listed.value| - 1] == PaymentsFor(ps, id)
  {
    var all := ps + [p];
    assert all[..|all| - 1] == ps;
  }

  /**
   * Reading an account: a non-positive id is a bad request with no store call;
   * otherwise exactly one read of the committed data, a missing row is "not
   * found", a store failure is internal, and a stored row is returned as is.
   */
  lemma GetAccountOutcome(db: DbState, faults: set<StoreOp>, id: int)
    ensures var (db', r) := GetAccountSpec(db, faults, id);
      && (id <= 0 <==> r == Failure(ServiceError(BadRequest, InvalidAccountId(id))))
      && (id <= 0 ==> db' == db)
      && (id > 0 ==> db' == db.(log := db.log + [GetAccountCall(Db, id)]))
      && (id > 0 && OpGetAccount in faults ==>
            r == Failure(ServiceError(Internal, GetAccountFailed(StoreFailure(OpGetAccount)))))
      && (id > 0 && OpGetAccount !in faults ==>
            && (r.Success? <==> id in db.committed.accounts)
            && (r.Success? ==> r.value == db.committed.accounts[id])
            && (r.Failure? ==> r == Failure(ServiceError(NotFound, NoSuchAccount(id)))))
  {
  }

  /**
   * Listing payments: a non-positive id is a bad request with no store call;
   * otherwise the payments sent or received by the account, in the order they
   * were recorded, or an internal error when the store fails.
   */
  lemma GetPaymentsOutcome(db: DbState, faults: set<StoreOp>, id: int)
    ensures var (db', r) := GetPaymentsSpec(db, faults, id);
      && (id <= 0 <==> r == Failure(ServiceError(BadRequest, InvalidAccountId(id))))
      && (id <= 0 ==> db' == db)
      && (id > 0 ==> db' == db.(log := db.log + [GetPaymentsCall(Db, id)]))
      && (id > 0 && OpGetPayments in faults ==>
            r == Failure(ServiceError(Internal, GetPaymentsFailed(StoreFailure(OpGetPayments)))))
      && (id > 0 && OpGetPayments !in faults ==>
            && r.Success?
            && r.value == PaymentsFor(db.committed.payments, id)
            && (forall q :: q in r.value <==> q in db.committed.payments && (q.from == id || q.to == id))
            && forall q :: multiset(r.value)[q] == (if q.from == id || q.to == id then multiset(db.committed.payments)[q] else 0))
  {
  }
}
