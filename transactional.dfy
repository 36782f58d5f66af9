/**
 * The transaction runner: open a transaction, run a callback, commit when the
 * callback succeeds, and roll back (in a deferred step) whenever the error to
 * be returned is set, a failed commit included.
 *
 * The callback is a function value in the specification, so the properties of
 * the runner hold for any callback. The code side passes the one callback the
 * service builds, the transfer body, as data: its payment and the handle its
 * store calls go through.
 */
module Transactional {
  import opened Wrappers
  import opened Errors
  import opened Times
  import opened Payments
  import opened Accounts
  import opened Storage
  import opened Transfer

  /** The transfer body as a value: the payment it applies and the handle it uses. */
  datatype Callback = TransferCallback(p: Payment, h: Handle)

  /** What running the callback does to a world. */
  function Body(cb: Callback, faults: set<StoreOp>, at: nat -> Time): World -> (World, Option<Error>)
  {
    w => PaymentTx(w, faults, cb.h, cb.p, at)
  }

  /** After the callback: commit if it succeeded; a failed commit is wrapped. */
  function Settle(db: DbState, faults: set<StoreOp>, fe: Option<Error>): (DbState, Option<Error>)
  {
    if fe.Some? then (db, fe)
    else
      var (db', ce) := CommitStep(db, faults);
      (db', if ce.Some? then Some(CommitFailed(ce.value)) else None)
  }

  /** The deferred step: with an error set, roll back; a failed rollback replaces the error. */
  function Deferred(db: DbState, faults: set<StoreOp>, err: Option<Error>): (DbState, Option<Error>)
  {
    if err.None? then (db, None)
    else
      var (db', re) := RollbackStep(db, faults);
      (db', if re.Some? then Some(RollbackFailed(re.value)) else err)
  }

  /** The runner on the world w with callback fn. A failed begin returns at once. */
  function ExecTxSpec(w: World, faults: set<StoreOp>, fn: World -> (World, Option<Error>)): (World, Option<Error>)
  {
    var (db1, be) := BeginStep(w.db, faults);
    if be.Some? then (World(db1, w.calls), be)
    else
      var (w2, fe) := fn(World(db1, w.calls));
      var (db3, err) := Settle(w2.db, faults, fe);
      var (db4, err') := Deferred(db3, faults, err);
      (World(db4, w2.calls), err')
  }

  // ------------------------------------------------------------ the code

  /** Runs the transfer body inside a transaction; what it does is ExecTxSpec with that body. */
  method ExecTx(store: MemStore, clock: Clock, cb: Callback) returns (err: Option<Error>)
    modifies store, clock
    ensures (World(store.st, clock.calls), err)
         == ExecTxSpec(World(old(store.st), old(clock.calls)), store.faults, Body(cb, store.faults, clock.at))
  {
    err := store.Begin();
    if err.Some? {
      return;
    }
    ghost var w2 := World(store.st, clock.calls);
    err := RunPaymentTx(store, clock, cb.h, cb.p);
    assert (World(store.st, clock.calls), err) == Body(cb, store.faults, clock.at)(w2);
    if err.None? {
      var ce := store.Commit();
      if ce.Some? {
        err := Some(CommitFailed(ce.value));
      }
    }
    // the deferred function, run on every return once the transaction is open
    if err.Some? {
      var re := store.Rollback();
      if re.Some? {
        err := Some(RollbackFailed(re.value));
      }
    }
  }

  // ------------------------------------------------------------ properties

  /** A failed begin is returned as it is; the callback never runs and nothing else is called. */
  lemma BeginFailureSkipsBody(w: World, faults: set<StoreOp>, fn: World -> (World, Option<Error>))
    requires OpBegin in faults
    ensures ExecTxSpec(w, faults, fn)
         == (World(w.db.(log := w.db.log + [BeginCall]), w.calls), Some(StoreFailure(OpBegin)))
  {
  }

  /**
   * For any callback, once the transaction is open: the run succeeds exactly
   * when the callback and the commit do, and then the staged writes are
   * published. A failed callback is followed by a rollback alone, a failed
   * commit by a rollback; the committed data is then what the callback left,
   * and the error is the callback's (or the wrapped commit failure) unless the
   * rollback itself fails, whose error then replaces it.
   */
  lemma {:induction false} ExecTxOutcome(w: World, faults: set<StoreOp>, fn: World -> (World, Option<Error>))
    requires OpBegin !in faults
    ensures var (w', err) := ExecTxSpec(w, faults, fn);
      var (w2, fe) := fn(World(BeginStep(w.db, faults).0, w.calls));
      var ce := CommitStep(w2.db, faults).1;
      && w'.calls == w2.calls
      && (err.None? <==> fe.None? && ce.None?)
      && (err.None? ==>
            && w2.db.pending.Some?
            && w'.db.committed == ApplyWrites(w2.db.committed, w2.db.pending.value)
            && w'.db.log == w2.db.log + [CommitCall])
      && (err.Some? ==> w'.db.committed == w2.db.committed && w'.db.pending.None?)
      && (fe.Some? ==> w'.db.log == w2.db.log + [RollbackCall])
      && (fe.None? && ce.Some? ==> w'.db.log == w2.db.log + [CommitCall, RollbackCall])
      && var re := RollbackStep(Settle(w2.db, faults, fe).0, faults).1;
      && (err.Some? && re.Some? ==> err.value == RollbackFailed(re.value))
      && (err.Some? && re.None? ==> err == if fe.Some? then fe else Some(CommitFailed(ce.value)))
  {
    var (db1, _) := BeginStep(w.db, faults);
    var (w2, fe) := fn(World(db1, w.calls));
    var (db3, e3) := Settle(w2.db, faults, fe);
    if fe.None? {
      var (dc, ce) := CommitStep(w2.db, faults);
      assert db3 == dc;
      if ce.None? {
        assert w2.db.pending.Some?;
      }
    }
    assert e3.None? <==> fe.None? && CommitStep(w2.db, faults).1.None?;
    if e3.Some? {
      assert db3.committed == w2.db.committed;
      var (db4, re) := RollbackStep(db3, faults);
      assert db4.log == db3.log + [RollbackCall];
      if fe.None? {
        assert db3.log == w2.db.log + [CommitCall];
      }
    }
  }

  /**
   * A callback that leaves the committed data alone and, when it succeeds, has
   * staged exactly ws, gives a run that publishes ws or nothing.
   */
  lemma {:induction false} StagingRunAllOrNothing(w: World, faults: set<StoreOp>, fn: World -> (World, Option<Error>), ws: seq<Write>)
    requires OpBegin !in faults
    requires var (w2, fe) := fn(World(BeginStep(w.db, faults).0, w.calls));
      && w2.db.committed == w.db.committed && w2.db.pending.Some?
      && (fe.None? ==> w2.db.pending.value == ws)
    ensures var (w', err) := ExecTxSpec(w, faults, fn);
      var fe := fn(World(BeginStep(w.db, faults).0, w.calls)).1;
      && (err.None? <==> fe.None? && OpCommit !in faults)
      && (err.None? ==> w'.db.committed == ApplyWrites(w.db.committed, ws))
      && (err.Some? ==> w'.db.committed == w.db.committed)
  {
    ExecTxOutcome(w, faults, fn);
  }

  /**
   * The corrected runner, whose body works through the transaction, is all or
   * nothing: it succeeds exactly when no store call fails and both balances
   * update, and then both accounts and the payment are committed; on any
   * failure the committed data is as it was.
   */
  lemma {:induction false} TxTransferAtomic(w: World, faults: set<StoreOp>, p: Payment, at: nat -> Time)
    ensures var (w', err) := ExecTxSpec(w, faults, Body(TransferCallback(p, Tx), faults, at));
      var c := w.db.committed;
      var upd := UpdatedAccounts(c.accounts, p, at, w.calls);
      && (err.None? <==>
            && upd.Success?
            && OpBegin !in faults && OpGetAccounts !in faults && OpReplaceAccounts !in faults
            && OpInsertPayment !in faults && OpCommit !in faults)
      && (err.None? ==> w'.db.committed == Snapshot(UpsertAll(c.accounts, upd.value), c.payments + [p]))
      && (err.Some? ==> w'.db.committed == c)
  {
    var c := w.db.committed;
    var upd := UpdatedAccounts(c.accounts, p, at, w.calls);
    if OpBegin !in faults {
      TxBodyFits(w, faults, p, at);
      var ws := if upd.Success? then [ReplaceRows(upd.value), AppendPayment(p)] else [];
      StagingRunAllOrNothing(w, faults, Body(TransferCallback(p, Tx), faults, at), ws);
      if upd.Success? {
        ReplaceThenAppend(c, upd.value, p);
      }
    }
  }

  /**
   * The calls of a successful transfer run, in order, whichever handle its body
   * uses: begin, one fetch of both accounts (the sender's id first), the
   * replace of the updated pair, the insert of the payment, and the commit.
   */
  lemma {:induction false} TransferCalls(w: World, faults: set<StoreOp>, h: Handle, p: Payment, at: nat -> Time)
    requires ExecTxSpec(w, faults, Body(TransferCallback(p, h), faults, at)).1.None?
    ensures var w' := ExecTxSpec(w, faults, Body(TransferCallback(p, h), faults, at)).0;
      var upd := UpdatedAccounts(w.db.committed.accounts, p, at, w.calls);
      && upd.Success?
      && w'.db.log == w.db.log + [BeginCall, GetAccountsCall(h, [p.from, p.to]),
                                  ReplaceAccountsCall(h, upd.value), InsertPaymentCall(h, p), CommitCall]
  {
    TransferRunSucceeded(w, faults, h, p, at);
    var w1 := World(BeginStep(w.db, faults).0, w.calls);
    assert View(w1.db, h) == Some(w.db.committed);
    SuccessReplacesThenInserts(w1, faults, h, p, at);
    var upd := UpdatedAccounts(w.db.committed.accounts, p, at, w.calls).value;
    var fetch, replace, insert := GetAccountsCall(h, [p.from, p.to]), ReplaceAccountsCall(h, upd), InsertPaymentCall(h, p);
    assert PaymentTx(w1, faults, h, p, at).0.db.log == w.db.log + [BeginCall] + [fetch, replace, insert];
    AppendCalls(w.db.log, BeginCall, fetch, replace, insert, CommitCall);
  }

  /** Five calls appended one group at a time are the five calls appended at once. */
  lemma AppendCalls(log: seq<Call>, a: Call, b: Call, c: Call, d: Call, e: Call)
    ensures log + [a] + [b, c, d] + [e] == log + [a, b, c, d, e]
  {
  }

  /** A successful run with the transfer body: begin, a successful body through h, commit. */
  lemma TransferRunSucceeded(w: World, faults: set<StoreOp>, h: Handle, p: Payment, at: nat -> Time)
    requires ExecTxSpec(w, faults, Body(TransferCallback(p, h), faults, at)).1.None?
    ensures OpBegin !in faults
    ensures var db1 := BeginStep(w.db, faults).0;
      var (w2, fe) := PaymentTx(World(db1, w.calls), faults, h, p, at);
      && db1.log == w.db.log + [BeginCall]
      && fe.None?
      && ExecTxSpec(w, faults, Body(TransferCallback(p, h), faults, at)).0.db.log == w2.db.log + [CommitCall]
  {
    SuccessfulRun(w, faults, Body(TransferCallback(p, h), faults, at));
  }

  /** A run that succeeds opened the transaction, ran the callback successfully and then committed. */
  lemma SuccessfulRun(w: World, faults: set<StoreOp>, fn: World -> (World, Option<Error>))
    requires ExecTxSpec(w, faults, fn).1.None?
    ensures OpBegin !in faults
    ensures var db1 := BeginStep(w.db, faults).0;
      var (w2, fe) := fn(World(db1, w.calls));
      && db1.log == w.db.log + [BeginCall]
      && fe.None?
      && ExecTxSpec(w, faults, fn).0.db.log == w2.db.log + [CommitCall]
  {
    ExecTxOutcome(w, faults, fn);
  }

  /** What the transfer body stages inside a freshly opened transaction. */
  lemma {:induction false} TxBodyFits(w: World, faults: set<StoreOp>, p: Payment, at: nat -> Time)
    requires OpBegin !in faults
    ensures var upd := UpdatedAccounts(w.db.committed.accounts, p, at, w.calls);
      var ws := if upd.Success? then [ReplaceRows(upd.value), AppendPayment(p)] else [];
      var (w2, fe) := Body(TransferCallback(p, Tx), faults, at)(World(BeginStep(w.db, faults).0, w.calls));
      && w2.db.committed == w.db.committed && w2.db.pending.Some?
      && (fe.None? ==> w2.db.pending.value == ws)
      && (fe.None? <==> upd.Success? && OpGetAccounts !in faults && OpReplaceAccounts !in faults && OpInsertPayment !in faults)
  {
    var db1 := BeginStep(w.db, faults).0;
    var w1 := World(db1, w.calls);
    assert View(db1, Tx) == Some(w.db.committed);
    TxBodyStages(w1, faults, p, at);
  }

  /**
   * The runner as written, whose body works through Db, on its success side: it
   * succeeds exactly when both balances update and no store call fails, and
   * then both accounts and the payment are committed, as in the corrected run.
   */
  lemma {:induction false} DbTransferSucceeds(w: World, faults: set<StoreOp>, p: Payment, at: nat -> Time)
    ensures var (w', err) := ExecTxSpec(w, faults, Body(TransferCallback(p, Db), faults, at));
      var c := w.db.committed;
      var upd := UpdatedAccounts(c.accounts, p, at, w.calls);
      && (err.None? <==>
            && upd.Success?
            && OpBegin !in faults && OpGetAccounts !in faults && OpReplaceAccounts !in faults
            && OpInsertPayment !in faults && OpCommit !in faults)
      && (err.None? ==> w'.db.committed == Snapshot(UpsertAll(c.accounts, upd.value), c.payments + [p]))
  {
    if OpBegin !in faults {
      var fn := Body(TransferCallback(p, Db), faults, at);
      var db1 := BeginStep(w.db, faults).0;
      ExecTxOutcome(w, faults, fn);
      DbBodyPublishes(World(db1, w.calls), faults, p, at);
      var w2 := fn(World(db1, w.calls)).0;
      assert w2.db.pending == Some([]);
      assert ApplyWrites(w2.db.committed, []) == w2.db.committed;
    }
  }

  /**
   * The runner as written, whose body works through Db: when the insert fails
   * after the replace succeeded, the run reports the failure, yet both updated
   * accounts are already committed and stay so after the rollback.
   */
  lemma {:induction false} DbTransferNotAtomic(w: World, faults: set<StoreOp>, p: Payment, at: nat -> Time)
    requires OpBegin !in faults && OpGetAccounts !in faults && OpReplaceAccounts !in faults && OpRollback !in faults
    requires OpInsertPayment in faults
    requires UpdatedAccounts(w.db.committed.accounts, p, at, w.calls).Success?
    ensures var (w', err) := ExecTxSpec(w, faults, Body(TransferCallback(p, Db), faults, at));
      var c := w.db.committed;
      && err == Some(ServiceError(Internal, InsertPaymentFailed(StoreFailure(OpInsertPayment))))
      && w'.db.committed == c.(accounts := UpsertAll(c.accounts, UpdatedAccounts(c.accounts, p, at, w.calls).value))
  {
    var fn := Body(TransferCallback(p, Db), faults, at);
    var (db1, _) := BeginStep(w.db, faults);
    ExecTxOutcome(w, faults, fn);
    var w1 := World(db1, w.calls);
    var upd := UpdatedAccounts(w.db.committed.accounts, p, at, w.calls);
    var (dbf, fetched) := GetAccountsStep(db1, faults, Db, [p.from, p.to]);
    assert fetched == Success(RowsFor(w.db.committed.accounts, [p.from, p.to]));
    var (db2, re) := ReplaceAccountsStep(dbf, faults, Db, upd.value);
    assert re.None? && db2.committed == w.db.committed.(accounts := UpsertAll(w.db.committed.accounts, upd.value));
    var (w2, fe) := fn(w1);
    assert w2.db.committed == db2.committed;
    assert db2.pending == Some([]);
  }
}
