/**
 * The body of a transfer: fetch both accounts (creating any that has no row),
 * debit the sender, credit the receiver, store both accounts and record the
 * payment. The store handle the body uses is a parameter: the code as written
 * uses the service's own store (Db) rather than the transaction (Tx).
 */
module Transfer {
  import opened Wrappers
  import opened Money
  import opened Errors
  import opened Times
  import opened Payments
  import opened Accounts
  import opened Storage

  /** What a transfer can change: the store, and how often the clock has been read. */
  datatype World = World(db: DbState, calls: nat)

  /** The row the fetch loop keeps for id: the last one with that id. */
  function Pick(rows: seq<AccountRow>, id: int): (r: Option<AccountRow>)
    ensures r.Some? ==> r.value in rows && r.value.id == id
    ensures r.None? <==> forall k | 0 <= k < |rows| :: rows[k].id != id
  {
    if rows == [] then None
    else if rows[|rows| - 1].id == id then Some(rows[|rows| - 1])
    else Pick(rows[..|rows| - 1], id)
  }

  /** The found row, or a new account with the default balance created at the clock's next reading. */
  function Synthesize(found: Option<AccountRow>, id: int, at: nat -> Time, k: nat): (r: (AccountRow, nat))
    ensures found.Some? ==> r == (found.value, k)
    ensures found.None? ==> r == (AccountRow(id, DefaultBalance, at(k)), k + 1)
  {
    if found.Some? then (found.value, k) else (AccountRow(id, DefaultBalance, at(k)), k + 1)
  }

  /** Sender and receiver as fetched or created, the sender first, and the clock count after. */
  function AccountsByPayment(rows: seq<AccountRow>, p: Payment, at: nat -> Time, k: nat): (AccountRow, AccountRow, nat)
  {
    var (from, k1) := Synthesize(Pick(rows, p.from), p.from, at, k);
    var (to, k2) := Synthesize(Pick(rows, p.to), p.to, at, k1);
    (from, to, k2)
  }

  /**
   * Whether the fetch loop points sender and receiver at one fetched object:
   * the payment names one account twice and that account was found.
   */
  predicate Aliased(rows: seq<AccountRow>, p: Payment)
  {
    p.from == p.to && Pick(rows, p.from).Some?
  }

  /**
   * The two accounts with their new balances, once both balance updates have
   * succeeded. When shared, sender and receiver are one object: the second
   * update starts from the balance the first one wrote, and both entries are
   * that object.
   */
  function Updated(from: AccountRow, to: AccountRow, p: Payment, shared: bool): Result<seq<AccountRow>, Error>
  {
    match Apply(from.id, from.balance, p)
    case Failure(e) => Failure(ServiceError(BadRequest, ApplyToSenderFailed(e)))
    case Success(fb) =>
      match Apply(to.id, if shared then fb else to.balance, p)
      case Failure(e) => Failure(ServiceError(BadRequest, ApplyToReceiverFailed(e)))
      case Success(tb) =>
        if shared then Success([to.(balance := tb), to.(balance := tb)])
        else Success([from.(balance := fb), to.(balance := tb)])
  }

  /** The two writes of a transfer, given the updated accounts: replace them, then record p. */
  function Persist(db: DbState, faults: set<StoreOp>, h: Handle, rows: seq<AccountRow>, p: Payment): (DbState, Option<Error>)
  {
    var (db1, re) := ReplaceAccountsStep(db, faults, h, rows);
    if re.Some? then (db1, Some(ServiceError(Internal, ReplaceAccountsFailed(re.value))))
    else
      var (db2, ie) := InsertPaymentStep(db1, faults, h, p);
      if ie.Some? then (db2, Some(ServiceError(Internal, InsertPaymentFailed(ie.value))))
      else (db2, None)
  }

  /** The transfer body run through handle h against the world w. */
  function PaymentTx(w: World, faults: set<StoreOp>, h: Handle, p: Payment, at: nat -> Time): (World, Option<Error>)
  {
    var (db1, fetched) := GetAccountsStep(w.db, faults, h, [p.from, p.to]);
    match fetched
    case Failure(e) => (World(db1, w.calls), Some(ServiceError(Internal, GetAccountsFailed(e))))
    case Success(rows) =>
      var (from, to, k) := AccountsByPayment(rows, p, at, w.calls);
      match Updated(from, to, p, Aliased(rows, p))
      case Failure(e) => (World(db1, k), Some(e))
      case Success(updated) =>
        var (db2, err) := Persist(db1, faults, h, updated, p);
        (World(db2, k), err)
  }

  // ------------------------------------------------------------ the code

  /**
   * Fetches both accounts of p through h; each one missing from the result is
   * created with the default balance and the clock's next reading. The two are
   * one object exactly when p names one account twice and it was found.
   */
  method GetAccountsByPayment(store: MemStore, clock: Clock, h: Handle, p: Payment)
    returns (from: Account?, to: Account?, err: Option<Error>)
    modifies store, clock
    ensures var (db1, fetched) := GetAccountsStep(old(store.st), store.faults, h, [p.from, p.to]);
      && store.st == db1
      && (fetched.Failure? ==> err == Some(fetched.error) && from == null && to == null && clock.calls == old(clock.calls))
      && (fetched.Success? ==>
            && err.None? && from != null && to != null && fresh(from) && fresh(to)
            && (from.Row(), to.Row(), clock.calls) == AccountsByPayment(fetched.value, p, clock.at, old(clock.calls))
            && (from == to <==> Aliased(fetched.value, p)))
  {
    var accounts;
    accounts, err := store.GetAccounts(h, [p.from, p.to]);
    if err.Some? {
      return null, null, err;
    }
    ghost var rows := GetAccountsStep(old(store.st), store.faults, h, [p.from, p.to]).1.value;
    from, to := FindAccounts(accounts, rows, p);
    ghost var (wantFrom, k1) := Synthesize(Pick(rows, p.from), p.from, clock.at, clock.calls);
    if from == null {
      var t := clock.Now();
      from := new Account.Create(p.from, t);
    }
    assert from.Row() == wantFrom && clock.calls == k1;
    ghost var (wantTo, k2) := Synthesize(Pick(rows, p.to), p.to, clock.at, k1);
    if to == null {
      var t := clock.Now();
      to := new Account.Create(p.to, t);
    }
    assert to.Row() == wantTo && clock.calls == k2;
  }

  /** The fetch loop: for each of p's ids, the last fetched account with that id, if any. */
  method FindAccounts(accounts: seq<Account>, ghost rows: seq<AccountRow>, p: Payment) returns (from: Account?, to: Account?)
    requires |accounts| == |rows|
    requires forall j | 0 <= j < |accounts| :: accounts[j].Row() == rows[j]
    ensures from == null <==> Pick(rows, p.from).None?
    ensures from != null ==> from in accounts && from.Row() == Pick(rows, p.from).value
    ensures to == null <==> Pick(rows, p.to).None?
    ensures to != null ==> to in accounts && to.Row() == Pick(rows, p.to).value
    ensures p.from == p.to ==> from == to
  {
    from, to := null, null;
    var i := 0;
    while i < |accounts|
      invariant 0 <= i <= |accounts|
      invariant from == null <==> Pick(rows[..i], p.from).None?
      invariant from != null ==> from in accounts && from.Row() == Pick(rows[..i], p.from).value
      invariant to == null <==> Pick(rows[..i], p.to).None?
      invariant to != null ==> to in accounts && to.Row() == Pick(rows[..i], p.to).value
      invariant p.from == p.to ==> from == to
    {
      assert rows[..i + 1][..i] == rows[..i];
      var a := accounts[i];
      if a.id == p.from {
        from := a;
      }
      if a.id == p.to {
        to := a;
      }
      i := i + 1;
    }
    assert rows[..i] == rows;
  }

  /** The transfer body; what it does to the store and the clock is PaymentTx. */
  method RunPaymentTx(store: MemStore, clock: Clock, h: Handle, p: Payment) returns (err: Option<Error>)
    modifies store, clock
    ensures (World(store.st, clock.calls), err)
         == PaymentTx(World(old(store.st), old(clock.calls)), store.faults, h, p, clock.at)
  {
    var from, to, e := GetAccountsByPayment(store, clock, h, p);
    if e.Some? {
      return Some(ServiceError(Internal, GetAccountsFailed(e.value)));
    }
    e := from.ApplyPayment(p);
    if e.Some? {
      return Some(ServiceError(BadRequest, ApplyToSenderFailed(e.value)));
    }
    e := to.ApplyPayment(p);
    if e.Some? {
      return Some(ServiceError(BadRequest, ApplyToReceiverFailed(e.value)));
    }
    e := store.ReplaceAccounts(h, [from.Row(), to.Row()]);
    if e.Some? {
      return Some(ServiceError(Internal, ReplaceAccountsFailed(e.value)));
    }
    e := store.InsertPayment(h, p);
    if e.Some? {
      return Some(ServiceError(Internal, InsertPaymentFailed(e.value)));
    }
    return None;
  }

  // ------------------------------------------------------------ properties

  /** A store write the transfer body makes through h. */
  predicate IsWriteThrough(c: Call, h: Handle)
  {
    (c.ReplaceAccountsCall? || c.InsertPaymentCall?) && c.h == h
  }

  /**
   * Persisting replaces the accounts and then, only if that succeeded, records
   * the payment; both go through h.
   */
  lemma PersistCalls(db: DbState, faults: set<StoreOp>, h: Handle, rows: seq<AccountRow>, p: Payment)
    ensures var (db', err) := Persist(db, faults, h, rows, p);
      var replace, insert := ReplaceAccountsCall(h, rows), InsertPaymentCall(h, p);
      && (db'.log == db.log + [replace] || db'.log == db.log + [replace, insert])
      && (db'.log == db.log + [replace] <==> ReplaceAccountsStep(db, faults, h, rows).1.Some?)
      && (db'.log == db.log + [replace] ==> err.Some? && err.value == ServiceError(Internal, ReplaceAccountsFailed(ReplaceAccountsStep(db, faults, h, rows).1.value)))
  {
    var (db1, re) := ReplaceAccountsStep(db, faults, h, rows);
    if re.None? {
      var (db2, ie) := InsertPaymentStep(db1, faults, h, p);
      assert db2.log == db.log + [ReplaceAccountsCall(h, rows), InsertPaymentCall(h, p)];
    }
  }

  /** Persisting keeps the log before it and appends one or two writes through h. */
  lemma PersistWrites(db: DbState, faults: set<StoreOp>, h: Handle, rows: seq<AccountRow>, p: Payment)
    ensures var db' := Persist(db, faults, h, rows, p).0;
      && |db.log| + 1 <= |db'.log| <= |db.log| + 2
      && db'.log[..|db.log|] == db.log
      && forall i | |db.log| <= i < |db'.log| :: IsWriteThrough(db'.log[i], h)
  {
    PersistCalls(db, faults, h, rows, p);
  }

  /**
   * The body reads once, first, with the sender's id before the receiver's;
   * everything it does afterwards is at most two writes through the same handle.
   */
  lemma FetchOnceThenWrites(w: World, faults: set<StoreOp>, h: Handle, p: Payment, at: nat -> Time)
    ensures var w' := PaymentTx(w, faults, h, p, at).0;
      var n := |w.db.log|;
      && n + 1 <= |w'.db.log| <= n + 3
      && w'.db.log[..n + 1] == w.db.log + [GetAccountsCall(h, [p.from, p.to])]
      && forall i | n + 1 <= i < |w'.db.log| :: IsWriteThrough(w'.db.log[i], h)
  {
    var fetch := GetAccountsCall(h, [p.from, p.to]);
    var (db1, fetched) := GetAccountsStep(w.db, faults, h, [p.from, p.to]);
    assert db1.log == w.db.log + [fetch];
    var w' := PaymentTx(w, faults, h, p, at).0;
    if fetched.Success? {
      var (from, to, k) := AccountsByPayment(fetched.value, p, at, w.calls);
      var updated := Updated(from, to, p, Aliased(fetched.value, p));
      if updated.Success? {
        PersistWrites(db1, faults, h, updated.value, p);
        assert w'.db == Persist(db1, faults, h, updated.value, p).0;
        assert w'.db.log[..|db1.log|] == db1.log;
      } else {
        assert w'.db == db1;
      }
    } else {
      assert w'.db == db1;
    }
  }

  /** Sender and receiver carry the payment's ids; a missing one is new, with the default balance and the next clock reading. */
  lemma {:induction false} MissingAccountsCreated(rows: seq<AccountRow>, p: Payment, at: nat -> Time, k: nat)
    ensures var (from, to, k') := AccountsByPayment(rows, p, at, k);
      var fromMissing := forall i | 0 <= i < |rows| :: rows[i].id != p.from;
      var toMissing := forall i | 0 <= i < |rows| :: rows[i].id != p.to;
      var k1 := if fromMissing then k + 1 else k;
      && from.id == p.from && to.id == p.to
      && (fromMissing ==> from == AccountRow(p.from, DefaultBalance, at(k)))
      && (!fromMissing ==> from in rows)
      && (toMissing ==> to == AccountRow(p.to, DefaultBalance, at(k1)))
      && (!toMissing ==> to in rows)
      && k' == k1 + (if toMissing then 1 else 0)
  {
  }

  /** From a store that keeps each row under its own id, the fetch finds an id exactly when it was asked for and is stored. */
  lemma PickFetched(accounts: map<int, AccountRow>, ids: seq<int>, id: int)
    requires WellKeyed(accounts)
    ensures Pick(RowsFor(accounts, ids), id).Some? <==> id in ids && id in accounts
    ensures Pick(RowsFor(accounts, ids), id).Some? ==> Pick(RowsFor(accounts, ids), id).value == accounts[id]
  {
    var rows := RowsFor(accounts, ids);
    if id in ids && id in accounts {
      var k :| 0 <= k < |rows| && rows[k] == accounts[id];
      assert rows[k].id == id;
    }
  }

  /**
   * The body reads the clock once for each of the payment's accounts the store
   * does not hold, and not at all when the fetch fails.
   */
  lemma ClockReadPerCreatedAccount(w: World, faults: set<StoreOp>, h: Handle, p: Payment, at: nat -> Time)
    requires View(w.db, h).Some? && WellKeyed(View(w.db, h).value.accounts)
    ensures var w' := PaymentTx(w, faults, h, p, at).0;
      var accounts := View(w.db, h).value.accounts;
      && (OpGetAccounts in faults ==> w'.calls == w.calls)
      && (OpGetAccounts !in faults ==>
            w'.calls == w.calls + (if p.from in accounts then 0 else 1) + (if p.to in accounts then 0 else 1))
  {
    var accounts := View(w.db, h).value.accounts;
    if OpGetAccounts !in faults {
      var rows := RowsFor(accounts, [p.from, p.to]);
      assert GetAccountsStep(w.db, faults, h, [p.from, p.to]).1 == Success(rows);
      PickFetched(accounts, [p.from, p.to], p.from);
      PickFetched(accounts, [p.from, p.to], p.to);
    }
  }

  /**
   * Once the fetch succeeds: a failed balance update is reported as
   * BadRequest, naming the sender when the sender's update fails and the
   * receiver when only the receiver's does, and nothing is stored; with both
   * updates done, only an Internal error can follow. The receiver's update
   * starts from the sender's result when the two are one object.
   */
  lemma UpdateFailureStoresNothing(w: World, faults: set<StoreOp>, h: Handle, p: Payment, at: nat -> Time)
    requires GetAccountsStep(w.db, faults, h, [p.from, p.to]).1.Success?
    ensures var (w', err) := PaymentTx(w, faults, h, p, at);
      var rows := GetAccountsStep(w.db, faults, h, [p.from, p.to]).1.value;
      var (from, to, _) := AccountsByPayment(rows, p, at, w.calls);
      var sender := Apply(from.id, from.balance, p);
      var receiver := Apply(to.id, if Aliased(rows, p) && sender.Success? then sender.value else to.balance, p);
      && (sender.Failure? ==> err == Some(ServiceError(BadRequest, ApplyToSenderFailed(sender.error))))
      && (sender.Success? && receiver.Failure? ==> err == Some(ServiceError(BadRequest, ApplyToReceiverFailed(receiver.error))))
      && (sender.Failure? || receiver.Failure? ==> w'.db == w.db.(log := w.db.log + [GetAccountsCall(h, [p.from, p.to])]))
      && (sender.Success? && receiver.Success? ==> err.None? || err.value.kind == Internal)
  {
    var rows := GetAccountsStep(w.db, faults, h, [p.from, p.to]).1.value;
    var (from, to, k) := AccountsByPayment(rows, p, at, w.calls);
    var sender := Apply(from.id, from.balance, p);
    if sender.Failure? {
      assert Updated(from, to, p, Aliased(rows, p)) == Failure(ServiceError(BadRequest, ApplyToSenderFailed(sender.error)));
    } else {
      var receiver := Apply(to.id, if Aliased(rows, p) then sender.value else to.balance, p);
      if receiver.Failure? {
        assert Updated(from, to, p, Aliased(rows, p)) == Failure(ServiceError(BadRequest, ApplyToReceiverFailed(receiver.error)));
      } else {
        assert Updated(from, to, p, Aliased(rows, p)).Success?;
      }
    }
  }

  /** One call and then two more are the three calls appended at once. */
  lemma AppendThree(log: seq<Call>, a: Call, b: Call, c: Call)
    ensures log + [a] + [b, c] == log + [a, b, c]
  {
  }

  /**
   * A body that succeeds stores the sender and the receiver, in that order and
   * with their updated balances, and then records the payment.
   */
  lemma {:induction false} SuccessReplacesThenInserts(w: World, faults: set<StoreOp>, h: Handle, p: Payment, at: nat -> Time)
    requires PaymentTx(w, faults, h, p, at).1.None?
    ensures View(w.db, h).Some?
    ensures var w' := PaymentTx(w, faults, h, p, at).0;
      var upd := UpdatedAccounts(View(w.db, h).value.accounts, p, at, w.calls);
      && upd.Success? && |upd.value| == 2
      && upd.value[0].id == p.from && upd.value[1].id == p.to
      && w'.db.log == w.db.log + [GetAccountsCall(h, [p.from, p.to]), ReplaceAccountsCall(h, upd.value), InsertPaymentCall(h, p)]
  {
    var db1 := GetAccountsStep(w.db, faults, h, [p.from, p.to]).0;
    SuccessPersists(w, faults, h, p, at);
    var upd := UpdatedAccounts(View(w.db, h).value.accounts, p, at, w.calls);
    UpdatedIds(View(w.db, h).value.accounts, p, at, w.calls);
    PersistCalls(db1, faults, h, upd.value, p);
    var fetch, replace, insert := GetAccountsCall(h, [p.from, p.to]), ReplaceAccountsCall(h, upd.value), InsertPaymentCall(h, p);
    assert PaymentTx(w, faults, h, p, at).0.db.log == w.db.log + [fetch] + [replace, insert];
    AppendThree(w.db.log, fetch, replace, insert);
  }

  /** A successful body is the fetch followed by persisting the updated accounts. */
  lemma SuccessPersists(w: World, faults: set<StoreOp>, h: Handle, p: Payment, at: nat -> Time)
    requires PaymentTx(w, faults, h, p, at).1.None?
    ensures View(w.db, h).Some?
    ensures var db1 := GetAccountsStep(w.db, faults, h, [p.from, p.to]).0;
      var upd := UpdatedAccounts(View(w.db, h).value.accounts, p, at, w.calls);
      && db1.log == w.db.log + [GetAccountsCall(h, [p.from, p.to])]
      && upd.Success?
      && PaymentTx(w, faults, h, p, at).0.db == Persist(db1, faults, h, upd.value, p).0
      && Persist(db1, faults, h, upd.value, p).1.None?
  {
    var (db1, fetched) := GetAccountsStep(w.db, faults, h, [p.from, p.to]);
    assert fetched.Success?;
    assert fetched.value == RowsFor(View(w.db, h).value.accounts, [p.from, p.to]);
  }

  /** The updated accounts are the sender's and then the receiver's. */
  lemma UpdatedIds(accounts: map<int, AccountRow>, p: Payment, at: nat -> Time, k: nat)
    ensures var upd := UpdatedAccounts(accounts, p, at, k);
      upd.Success? ==> |upd.value| == 2 && upd.value[0].id == p.from && upd.value[1].id == p.to
  {
    MissingAccountsCreated(RowsFor(accounts, [p.from, p.to]), p, at, k);
  }

  /**
   * A failed replace is an internal error and the payment is not recorded;
   * once the fetch and both balance updates have succeeded, the replace is
   * what failed.
   */
  lemma ReplaceFailureSkipsInsert(w: World, faults: set<StoreOp>, h: Handle, p: Payment, at: nat -> Time)
    requires OpReplaceAccounts in faults
    ensures var (w', err) := PaymentTx(w, faults, h, p, at);
      var (_, fetched) := GetAccountsStep(w.db, faults, h, [p.from, p.to]);
      && err.Some?
      && (forall i | |w.db.log| <= i < |w'.db.log| :: !w'.db.log[i].InsertPaymentCall?)
      && (fetched.Success? ==>
            var (from, to, _) := AccountsByPayment(fetched.value, p, at, w.calls);
            Updated(from, to, p, Aliased(fetched.value, p)).Success? ==>
              err == Some(ServiceError(Internal, ReplaceAccountsFailed(StoreFailure(OpReplaceAccounts)))))
  {
  }

  /**
   * A payment from an existing account to itself debits that one account
   * twice, the second time from the balance the first debit wrote; both
   * entries to store carry the final balance.
   */
  lemma SelfPaymentDebitsTwice(accounts: map<int, AccountRow>, p: Payment, at: nat -> Time, k: nat)
    requires WellKeyed(accounts) && p.from == p.to && p.from in accounts
    ensures var a := accounts[p.from];
      var first := Apply(p.from, a.balance, p);
      var upd := UpdatedAccounts(accounts, p, at, k);
      && (first.Failure? ==> upd == Failure(ServiceError(BadRequest, ApplyToSenderFailed(first.error))))
      && (first.Success? ==>
            var second := Apply(p.from, first.value, p);
            && (second.Failure? ==> upd == Failure(ServiceError(BadRequest, ApplyToReceiverFailed(second.error))))
            && (second.Success? ==> upd == Success([a.(balance := second.value), a.(balance := second.value)])))
  {
    var a := accounts[p.from];
    var rows := RowsFor(accounts, [p.from, p.to]);
    assert [p.from, p.to][..1] == [p.from] && [p.from][..0] == [];
    assert rows == [a];
    assert Pick(rows, p.from) == Some(a);
    assert Aliased(rows, p);
    assert AccountsByPayment(rows, p, at, k) == (a, a, k);
    assert UpdatedAccounts(accounts, p, at, k) == Updated(a, a, p, true);
  }

  /**
   * A payment from a missing account to itself creates two separate accounts
   * with that id, one clock reading apart. Apply treats each as the sender, so
   * each is debited once from the default balance, and both rows go to the
   * replace.
   */
  lemma UnstoredSelfPaymentDuplicates(accounts: map<int, AccountRow>, p: Payment, at: nat -> Time, k: nat)
    requires p.from == p.to && p.from !in accounts
    ensures var debit := Apply(p.from, DefaultBalance, p);
      var upd := UpdatedAccounts(accounts, p, at, k);
      && (debit.Failure? ==> upd == Failure(ServiceError(BadRequest, ApplyToSenderFailed(debit.error))))
      && (debit.Success? ==>
            upd == Success([AccountRow(p.from, debit.value, at(k)), AccountRow(p.from, debit.value, at(k + 1))]))
  {
    var rows := RowsFor(accounts, [p.from, p.to]);
    assert [p.from, p.to][..1] == [p.from] && [p.from][..0] == [];
    assert RowsFor(accounts, [p.from]) == [];
    assert rows == [];
    assert !Aliased(rows, p);
    assert AccountsByPayment(rows, p, at, k)
        == (AccountRow(p.from, DefaultBalance, at(k)), AccountRow(p.from, DefaultBalance, at(k + 1)), k + 2);
  }

  /** The updated sender and receiver for a transfer of p against the accounts a fetch would see. */
  function UpdatedAccounts(accounts: map<int, AccountRow>, p: Payment, at: nat -> Time, k: nat): Result<seq<AccountRow>, Error>
  {
    var rows := RowsFor(accounts, [p.from, p.to]);
    var (from, to, _) := AccountsByPayment(rows, p, at, k);
    Updated(from, to, p, Aliased(rows, p))
  }

  /**
   * Through an open transaction the body never changes committed data: it
   * succeeds exactly when the balances update and none of its three store calls
   * fails, and then it has staged the replace and the insert, in that order.
   */
  lemma {:induction false} TxBodyStages(w: World, faults: set<StoreOp>, p: Payment, at: nat -> Time)
    requires w.db.pending.Some?
    ensures var (w', err) := PaymentTx(w, faults, Tx, p, at);
      var upd := UpdatedAccounts(View(w.db, Tx).value.accounts, p, at, w.calls);
      && w'.db.committed == w.db.committed
      && w'.db.pending.Some?
      && (err.None? <==>
            upd.Success? && OpGetAccounts !in faults && OpReplaceAccounts !in faults && OpInsertPayment !in faults)
      && (err.None? ==> w'.db.pending.value == w.db.pending.value + [ReplaceRows(upd.value), AppendPayment(p)])
  {
    var (db1, fetched) := GetAccountsStep(w.db, faults, Tx, [p.from, p.to]);
    assert db1.committed == w.db.committed && db1.pending == w.db.pending;
    if fetched.Success? {
      var (from, to, k) := AccountsByPayment(fetched.value, p, at, w.calls);
      var upd := Updated(from, to, p, Aliased(fetched.value, p));
      assert upd == UpdatedAccounts(View(w.db, Tx).value.accounts, p, at, w.calls);
      if upd.Success? {
        var (db2, re) := ReplaceAccountsStep(db1, faults, Tx, upd.value);
        if re.None? {
          var (db3, ie) := InsertPaymentStep(db2, faults, Tx, p);
          assert db2.pending.value == w.db.pending.value + [ReplaceRows(upd.value)];
          assert PaymentTx(w, faults, Tx, p, at).0.db == db3;
          if ie.None? {
            assert db3.pending.value == db2.pending.value + [AppendPayment(p)];
          }
        } else {
          assert PaymentTx(w, faults, Tx, p, at).0.db == db2;
        }
      } else {
        assert PaymentTx(w, faults, Tx, p, at).0.db == db1;
      }
    }

  }

  /**
   * Through Db the body publishes every write at once and leaves the staged
   * writes of an open transaction alone. It succeeds exactly when the balances
   * update and none of its three store calls fails, and then both accounts and
   * the payment are committed; when only the insert fails, the updated
   * accounts are committed already.
   */
  lemma {:induction false} DbBodyPublishes(w: World, faults: set<StoreOp>, p: Payment, at: nat -> Time)
    ensures var (w', err) := PaymentTx(w, faults, Db, p, at);
      var c := w.db.committed;
      var upd := UpdatedAccounts(c.accounts, p, at, w.calls);
      && w'.db.pending == w.db.pending
      && (err.None? <==>
            upd.Success? && OpGetAccounts !in faults && OpReplaceAccounts !in faults && OpInsertPayment !in faults)
      && (err.None? ==> w'.db.committed == Snapshot(UpsertAll(c.accounts, upd.value), c.payments + [p]))
      && (upd.Success? && OpGetAccounts !in faults && OpReplaceAccounts !in faults && OpInsertPayment in faults ==>
            && err == Some(ServiceError(Internal, InsertPaymentFailed(StoreFailure(OpInsertPayment))))
            && w'.db.committed == c.(accounts := UpsertAll(c.accounts, upd.value)))
  {
    var c := w.db.committed;
    var (db1, fetched) := GetAccountsStep(w.db, faults, Db, [p.from, p.to]);
    assert db1.committed == c && db1.pending == w.db.pending;
    if fetched.Success? {
      var (from, to, k) := AccountsByPayment(fetched.value, p, at, w.calls);
      var upd := Updated(from, to, p, Aliased(fetched.value, p));
      assert upd == UpdatedAccounts(c.accounts, p, at, w.calls);
      if upd.Success? {
        var (db2, re) := ReplaceAccountsStep(db1, faults, Db, upd.value);
        if re.None? {
          var (db3, ie) := InsertPaymentStep(db2, faults, Db, p);
          assert db2.committed == c.(accounts := UpsertAll(c.accounts, upd.value)) && db2.pending == w.db.pending;
          assert PaymentTx(w, faults, Db, p, at).0.db == db3;
          if ie.None? {
            assert db3.committed == Snapshot(UpsertAll(c.accounts, upd.value), c.payments + [p]);
          }
        } else {
          assert PaymentTx(w, faults, Db, p, at).0.db == db2;
        }
      } else {
        assert PaymentTx(w, faults, Db, p, at).0.db == db1;
      }
    }
  }
}
