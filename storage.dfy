/**
 * The store the payment engine talks to, as an in-memory collaborator: account
 * rows keyed by id, payments in insertion order, at most one open transaction
 * whose writes are staged until it commits, and a log of every call made.
 *
 * A call goes through a handle: Db works on the committed state directly (each
 * write is published at once), Tx works inside the open transaction (reads
 * see the committed state with the staged writes applied; writes are staged).
 * The operations named in `faults` fail whenever they are called.
 */
module Storage {
  import opened Wrappers
  import opened Errors
  import opened Payments
  import opened Accounts

  /** What the database holds: account rows by id and the payments in insertion order. */
  datatype Snapshot = Snapshot(accounts: map<int, AccountRow>, payments: seq<Payment>)

  /** The connection a call goes through: the database itself, or the open transaction. */
  datatype Handle = Db | Tx

  /** A write a transaction stages until it commits. */
  datatype Write = ReplaceRows(rows: seq<AccountRow>) | AppendPayment(payment: Payment)

  /** One call made to the store, with its arguments. */
  datatype Call =
    | BeginCall
    | CommitCall
    | RollbackCall
    | GetAccountCall(h: Handle, id: int)
    | GetAccountsCall(h: Handle, ids: seq<int>)
    | GetPaymentsCall(h: Handle, accountId: int)
    | InsertPaymentCall(h: Handle, payment: Payment)
    | ReplaceAccountsCall(h: Handle, rows: seq<AccountRow>)

  /** The committed data, the writes of the open transaction if there is one, and the call log. */
  datatype DbState = DbState(committed: Snapshot, pending: Option<seq<Write>>, log: seq<Call>)

  /** Every row is stored under its own id. */
  predicate WellKeyed(accounts: map<int, AccountRow>)
  {
    forall id | id in accounts :: accounts[id].id == id
  }

  // ------------------------------------------------------------ writes

  /**
   * Inserting a row, or, when its id is taken, updating only the stored row's
   * balance (the insert's conflict clause sets balance and nothing else).
   */
  function Upsert(accounts: map<int, AccountRow>, row: AccountRow): (r: map<int, AccountRow>)
    ensures r.Keys == accounts.Keys + {row.id}
    ensures row.id in accounts ==> r[row.id] == accounts[row.id].(balance := row.balance)
    ensures row.id !in accounts ==> r[row.id] == row
    ensures forall id | id in accounts && id != row.id :: r[id] == accounts[id]
  {
    if row.id in accounts then accounts[row.id := accounts[row.id].(balance := row.balance)]
    else accounts[row.id := row]
  }

  /** The rows upserted one after another. */
  function UpsertAll(accounts: map<int, AccountRow>, rows: seq<AccountRow>): map<int, AccountRow>
    decreases |rows|
  {
    if rows == [] then accounts else UpsertAll(Upsert(accounts, rows[0]), rows[1..])
  }

  /** Upserting keeps every row under its own id. */
  lemma {:induction false} UpsertAllWellKeyed(accounts: map<int, AccountRow>, rows: seq<AccountRow>)
    requires WellKeyed(accounts)
    ensures WellKeyed(UpsertAll(accounts, rows))
    decreases |rows|
  {
    if rows != [] {
      var next := Upsert(accounts, rows[0]);
      assert WellKeyed(next);
      UpsertAllWellKeyed(next, rows[1..]);
    }
  }

  /** Upserting leaves alone every account whose id none of the rows carries. */
  lemma {:induction false} UpsertAllOthers(accounts: map<int, AccountRow>, rows: seq<AccountRow>, id: int)
    requires forall k | 0 <= k < |rows| :: rows[k].id != id
    ensures id in UpsertAll(accounts, rows) <==> id in accounts
    ensures id in accounts ==> UpsertAll(accounts, rows)[id] == accounts[id]
    decreases |rows|
  {
    if rows != [] {
      UpsertAllOthers(Upsert(accounts, rows[0]), rows[1..], id);
    }
  }

  /** Upserting two rows with distinct ids sets both balances and leaves every other account alone. */
  lemma {:induction false} UpsertPair(accounts: map<int, AccountRow>, a: AccountRow, b: AccountRow)
    requires a.id != b.id
    ensures var r := UpsertAll(accounts, [a, b]);
      && r.Keys == accounts.Keys + {a.id, b.id}
      && r[a.id].balance == a.balance && r[b.id].balance == b.balance
      && (a.id !in accounts ==> r[a.id] == a) && (b.id !in accounts ==> r[b.id] == b)
      && (a.id in accounts ==> r[a.id] == accounts[a.id].(balance := a.balance))
      && (b.id in accounts ==> r[b.id] == accounts[b.id].(balance := b.balance))
      && forall id | id in accounts && id != a.id && id != b.id :: r[id] == accounts[id]
  {
    var rows := [a, b];
    var m1 := Upsert(accounts, a);
    var m2 := Upsert(m1, b);
    assert rows[1..] == [b] && rows[1..][1..] == [];
    assert UpsertAll(accounts, rows) == UpsertAll(m1, [b]);
    assert UpsertAll(m1, [b]) == UpsertAll(m2, []);
  }

  function ApplyWrite(s: Snapshot, w: Write): Snapshot
  {
    match w
    case ReplaceRows(rows) => s.(accounts := UpsertAll(s.accounts, rows))
    case AppendPayment(p) => s.(payments := s.payments + [p])
  }

  /** The snapshot after the writes, in the order they were made. */
  function ApplyWrites(s: Snapshot, ws: seq<Write>): Snapshot
    decreases |ws|
  {
    if ws == [] then s else ApplyWrites(ApplyWrite(s, ws[0]), ws[1..])
  }

  /** A transaction that replaced rows and then appended a payment publishes both. */
  lemma ReplaceThenAppend(s: Snapshot, rows: seq<AccountRow>, p: Payment)
    ensures ApplyWrites(s, [ReplaceRows(rows), AppendPayment(p)])
         == Snapshot(UpsertAll(s.accounts, rows), s.payments + [p])
  {
    var ws := [ReplaceRows(rows), AppendPayment(p)];
    var s1 := ApplyWrite(s, ws[0]);
    assert ws[1..] == [AppendPayment(p)] && ws[1..][1..] == [];
    assert ApplyWrites(s, ws) == ApplyWrites(s1, ws[1..]);
    assert ApplyWrites(s1, ws[1..]) == ApplyWrites(ApplyWrite(s1, ws[1]), []);
  }

  // ------------------------------------------------------------ queries

  /** The rows whose id is among ids, in the order of the ids, each id once. */
  function RowsFor(accounts: map<int, AccountRow>, ids: seq<int>): (r: seq<AccountRow>)
    ensures |r| <= |ids|
    ensures forall id | id in ids && id in accounts :: accounts[id] in r
    ensures forall row | row in r :: exists id | id in ids && id in accounts :: accounts[id] == row
  {
    if ids == [] then []
    else
      var rest := ids[..|ids| - 1];
      var id := ids[|ids| - 1];
      assert forall i | i in ids && i != id :: i in rest;
      RowsFor(accounts, rest) + (if id in accounts && id !in rest then [accounts[id]] else [])
  }

  /** For two distinct ids, the stored rows of the first and then of the second. */
  lemma RowsForPair(accounts: map<int, AccountRow>, a: int, b: int)
    requires a != b
    ensures RowsFor(accounts, [a, b])
         == (if a in accounts then [accounts[a]] else []) + (if b in accounts then [accounts[b]] else [])
  {
    assert [a, b][..1] == [a];
    assert [a][..0] == [];
  }

  /** The payments sent or received by the account, in insertion order. */
  function PaymentsFor(payments: seq<Payment>, id: int): (r: seq<Payment>)
    ensures |r| <= |payments|
    ensures forall q :: q in r <==> q in payments && (q.from == id || q.to == id)
    ensures forall q :: multiset(r)[q] == if q.from == id || q.to == id then multiset(payments)[q] else 0
  {
    if payments == [] then []
    else
      var q := payments[|payments| - 1];
      var rest := payments[..|payments| - 1];
      assert payments == rest + [q];
      assert multiset(payments) == multiset(rest) + multiset{q};
      PaymentsFor(rest, id) + (if q.from == id || q.to == id then [q] else [])
  }

  /** What a call through h sees; nothing when h is Tx and no transaction is open. */
  function View(s: DbState, h: Handle): Option<Snapshot>
  {
    match h
    case Db => Some(s.committed)
    case Tx => if s.pending.Some? then Some(ApplyWrites(s.committed, s.pending.value)) else None
  }

  // ------------------------------------------------------------ steps

  /** Opening a transaction with no staged writes. */
  function BeginStep(s: DbState, faults: set<StoreOp>): (r: (DbState, Option<Error>))
    ensures r.0.committed == s.committed && r.0.log == s.log + [BeginCall]
    ensures r.1.None? <==> OpBegin !in faults
    ensures r.1.None? ==> r.0.pending == Some([])
    ensures r.1.Some? ==> r.1.value == StoreFailure(OpBegin) && r.0.pending == s.pending
  {
    var s' := s.(log := s.log + [BeginCall]);
    if OpBegin in faults then (s', Some(StoreFailure(OpBegin)))
    else (s'.(pending := Some([])), None)
  }

  /**
   * Publishing the staged writes. A failing commit publishes nothing and
   * leaves the transaction open, so that a rollback can still discard it.
   */
  function CommitStep(s: DbState, faults: set<StoreOp>): (r: (DbState, Option<Error>))
    ensures r.0.log == s.log + [CommitCall]
    ensures s.pending.None? ==> r == (s.(log := r.0.log), Some(TxDone))
    ensures s.pending.Some? && OpCommit in faults ==> r == (s.(log := r.0.log), Some(StoreFailure(OpCommit)))
    ensures s.pending.Some? && OpCommit !in faults ==>
      r.1.None? && r.0.pending.None? && r.0.committed == ApplyWrites(s.committed, s.pending.value)
  {
    var s' := s.(log := s.log + [CommitCall]);
    if s.pending.None? then (s', Some(TxDone))
    else if OpCommit in faults then (s', Some(StoreFailure(OpCommit)))
    else (s'.(committed := ApplyWrites(s.committed, s.pending.value), pending := None), None)
  }

  /** Discarding the staged writes; the committed data never changes, whatever is reported. */
  function RollbackStep(s: DbState, faults: set<StoreOp>): (r: (DbState, Option<Error>))
    ensures r.0.committed == s.committed && r.0.pending.None? && r.0.log == s.log + [RollbackCall]
    ensures s.pending.None? ==> r.1 == Some(TxDone)
    ensures s.pending.Some? ==> (r.1.None? <==> OpRollback !in faults)
    ensures s.pending.Some? && r.1.Some? ==> r.1.value == StoreFailure(OpRollback)
  {
    var s' := s.(log := s.log + [RollbackCall], pending := None);
    if s.pending.None? then (s', Some(TxDone))
    else if OpRollback in faults then (s', Some(StoreFailure(OpRollback)))
    else (s', None)
  }

  /** The error of a call through h, if it cannot run: no open transaction, or an injected fault. */
  function CallError(s: DbState, faults: set<StoreOp>, h: Handle, op: StoreOp): (e: Option<Error>)
    ensures e.None? <==> View(s, h).Some? && op !in faults
  {
    if View(s, h).None? then Some(TxDone)
    else if op in faults then Some(StoreFailure(op))
    else None
  }

  /** Reading one account; a missing row is reported as not found. */
  function GetAccountStep(s: DbState, faults: set<StoreOp>, h: Handle, id: int): (r: (DbState, Result<AccountRow, Error>))
    ensures r.0 == s.(log := s.log + [GetAccountCall(h, id)])
    ensures CallError(s, faults, h, OpGetAccount).Some? ==> r.1 == Failure(CallError(s, faults, h, OpGetAccount).value)
    ensures CallError(s, faults, h, OpGetAccount).None? ==>
      var accounts := View(s, h).value.accounts;
      && (id in accounts <==> r.1.Success?)
      && (id in accounts ==> r.1.value == accounts[id])
      && (id !in accounts ==> r.1 == Failure(AccountNotFound))
  {
    var s' := s.(log := s.log + [GetAccountCall(h, id)]);
    match CallError(s, faults, h, OpGetAccount)
    case Some(e) => (s', Failure(e))
    case None =>
      var accounts := View(s, h).value.accounts;
      if id in accounts then (s', Success(accounts[id])) else (s', Failure(AccountNotFound))
  }

  /** Reading the accounts with the given ids; ids without a row are left out of the result. */
  function GetAccountsStep(s: DbState, faults: set<StoreOp>, h: Handle, ids: seq<int>): (r: (DbState, Result<seq<AccountRow>, Error>))
    ensures r.0 == s.(log := s.log + [GetAccountsCall(h, ids)])
    ensures CallError(s, faults, h, OpGetAccounts).Some? ==> r.1 == Failure(CallError(s, faults, h, OpGetAccounts).value)
    ensures CallError(s, faults, h, OpGetAccounts).None? ==> r.1 == Success(RowsFor(View(s, h).value.accounts, ids))
  {
    var s' := s.(log := s.log + [GetAccountsCall(h, ids)]);
    match CallError(s, faults, h, OpGetAccounts)
    case Some(e) => (s', Failure(e))
    case None => (s', Success(RowsFor(View(s, h).value.accounts, ids)))
  }

  /** Reading the payments the account sent or received. */
  function GetPaymentsStep(s: DbState, faults: set<StoreOp>, h: Handle, id: int): (r: (DbState, Result<seq<Payment>, Error>))
    ensures r.0 == s.(log := s.log + [GetPaymentsCall(h, id)])
    ensures CallError(s, faults, h, OpGetPayments).Some? ==> r.1 == Failure(CallError(s, faults, h, OpGetPayments).value)
    ensures CallError(s, faults, h, OpGetPayments).None? ==> r.1 == Success(PaymentsFor(View(s, h).value.payments, id))
  {
    var s' := s.(log := s.log + [GetPaymentsCall(h, id)]);
    match CallError(s, faults, h, OpGetPayments)
    case Some(e) => (s', Failure(e))
    case None => (s', Success(PaymentsFor(View(s, h).value.payments, id)))
  }

  /** A write through h: published at once through Db, staged in the open transaction through Tx. */
  function WriteStep(s: DbState, faults: set<StoreOp>, h: Handle, op: StoreOp, call: Call, w: Write): (r: (DbState, Option<Error>))
    ensures r.0.log == s.log + [call]
    ensures r.1 == CallError(s, faults, h, op)
    ensures r.1.Some? ==> r.0 == s.(log := r.0.log)
    ensures r.1.None? && h == Db ==> r.0 == s.(log := r.0.log, committed := ApplyWrite(s.committed, w))
    ensures r.1.None? && h == Tx ==> r.0 == s.(log := r.0.log, pending := Some(s.pending.value + [w]))
  {
    var s' := s.(log := s.log + [call]);
    match CallError(s, faults, h, op)
    case Some(e) => (s', Some(e))
    case None =>
      match h
      case Db => (s'.(committed := ApplyWrite(s.committed, w)), None)
      case Tx => (s'.(pending := Some(s.pending.value + [w])), None)
  }

  function ReplaceAccountsStep(s: DbState, faults: set<StoreOp>, h: Handle, rows: seq<AccountRow>): (DbState, Option<Error>)
  {
    WriteStep(s, faults, h, OpReplaceAccounts, ReplaceAccountsCall(h, rows), ReplaceRows(rows))
  }

  function InsertPaymentStep(s: DbState, faults: set<StoreOp>, h: Handle, p: Payment): (DbState, Option<Error>)
  {
    WriteStep(s, faults, h, OpInsertPayment, InsertPaymentCall(h, p), AppendPayment(p))
  }

  // ------------------------------------------------------------ the store object

  /** The store as the service holds it: its state changes with every call. */
  class MemStore {
    var st: DbState
    /** The operations that fail whenever they are called. */
    const faults: set<StoreOp>

    constructor (init: Snapshot, faults: set<StoreOp>)
      ensures st == DbState(init, None, []) && this.faults == faults
    {
      st := DbState(init, None, []);
      this.faults := faults;
    }

    method Begin() returns (err: Option<Error>)
      modifies this
      ensures (st, err) == BeginStep(old(st), faults)
    {
      var r := BeginStep(st, faults);
      st, err := r.0, r.1;
    }

    method Commit() returns (err: Option<Error>)
      modifies this
      ensures (st, err) == CommitStep(old(st), faults)
    {
      var r := CommitStep(st, faults);
      st, err := r.0, r.1;
    }

    method Rollback() returns (err: Option<Error>)
      modifies this
      ensures (st, err) == RollbackStep(old(st), faults)
    {
      var r := RollbackStep(st, faults);
      st, err := r.0, r.1;
    }

    /** A freshly loaded account object, or the error. */
    method GetAccount(h: Handle, id: int) returns (a: Account?, err: Option<Error>)
      modifies this
      ensures var r := GetAccountStep(old(st), faults, h, id);
        && st == r.0
        && (r.1.Success? ==> err.None? && a != null && fresh(a) && a.Row() == r.1.value)
        && (r.1.Failure? ==> err == Some(r.1.error) && a == null)
    {
      var r := GetAccountStep(st, faults, h, id);
      st := r.0;
      if r.1.Failure? {
        return null, Some(r.1.error);
      }
      a := new Account.Load(r.1.value);
      err := None;
    }

    /** One freshly loaded account object per row found, in the order of the rows. */
    method GetAccounts(h: Handle, ids: seq<int>) returns (accounts: seq<Account>, err: Option<Error>)
      modifies this
      ensures var r := GetAccountsStep(old(st), faults, h, ids);
        && st == r.0
        && (r.1.Success? ==>
              && err.None? && |accounts| == |r.1.value|
              && forall i | 0 <= i < |accounts| :: fresh(accounts[i]) && accounts[i].Row() == r.1.value[i])
        && (r.1.Failure? ==> err == Some(r.1.error) && accounts == [])
    {
      var r := GetAccountsStep(st, faults, h, ids);
      st := r.0;
      if r.1.Failure? {
        return [], Some(r.1.error);
      }
      var rows := r.1.value;
      accounts := [];
      var i := 0;
      while i < |rows|
        invariant 0 <= i <= |rows| && |accounts| == i && st == r.0
        invariant forall j | 0 <= j < i :: fresh(accounts[j]) && accounts[j].Row() == rows[j]
      {
        var a := new Account.Load(rows[i]);
        accounts := accounts + [a];
        i := i + 1;
      }
      err := None;
    }

    method GetPayments(h: Handle, id: int) returns (payments: seq<Payment>, err: Option<Error>)
      modifies this
      ensures var r := GetPaymentsStep(old(st), faults, h, id);
        && st == r.0
        && (r.1.Success? ==> err.None? && payments == r.1.value)
        && (r.1.Failure? ==> err == Some(r.1.error) && payments == [])
    {
      var r := GetPaymentsStep(st, faults, h, id);
      st := r.0;
      if r.1.Failure? {
        return [], Some(r.1.error);
      }
      payments, err := r.1.value, None;
    }

    method ReplaceAccounts(h: Handle, rows: seq<AccountRow>) returns (err: Option<Error>)
      modifies this
      ensures (st, err) == ReplaceAccountsStep(old(st), faults, h, rows)
    {
      var r := ReplaceAccountsStep(st, faults, h, rows);
      st, err := r.0, r.1;
    }

    method InsertPayment(h: Handle, p: Payment) returns (err: Option<Error>)
      modifies this
      ensures (st, err) == InsertPaymentStep(old(st), faults, h, p)
    {
      var r := InsertPaymentStep(st, faults, h, p);
      st, err := r.0, r.1;
    }
  }
}
