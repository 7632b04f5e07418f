/** The tables and what each SQL statement of the store means on them.
    Folds run over a table in id order, the order in which the account index is scanned. */
module Sql {
  import opened Domain

  datatype Account = Account(
    id: string,
    name: string,
    passwordHash: Option<string>,
    role: string,
    createdAt: Time)

  datatype Row = Row(
    id: nat,
    ref: string,
    account: string,
    kind: Kind,
    points: Int64,
    reward: Option<string>,
    at: Time)

  /** Accounts in creation order, transactions in id order. */
  datatype Ledger = Ledger(accounts: seq<Account>, rows: seq<Row>)

  // Accounts

  function Lookup(accounts: seq<Account>, id: string): Option<Account> {
    if |accounts| == 0 then None
    else if Last(accounts).id == id then Some(Last(accounts))
    else Lookup(Front(accounts), id)
  }

  predicate HasAccount(l: Ledger, id: string) {
    Lookup(l.accounts, id).Some?
  }

  /** INSERT INTO accounts: None is a PRIMARY KEY violation. */
  function InsertAccount(l: Ledger, a: Account): Option<Ledger> {
    if HasAccount(l, a.id) then None else Some(l.(accounts := l.accounts + [a]))
  }

  // Transactions

  function FindRef(rows: seq<Row>, ref: string): Option<Row> {
    if |rows| == 0 then None
    else if Last(rows).ref == ref then Some(Last(rows))
    else FindRef(Front(rows), ref)
  }

  function NextId(rows: seq<Row>): nat {
    if |rows| == 0 then 1 else Last(rows).id + 1
  }

  /** The table's CHECK constraints on kind and points. */
  predicate ChecksPass(kind: Kind, points: Int64) {
    !kind.Other? && points > 0
  }

  function ToRow(t: Transaction, id: nat): Row {
    Row(id, t.ref, t.account, t.kind, t.points, if t.reward == "" then None else Some(t.reward), Canonical(t.at))
  }

  function FromRow(r: Row): Transaction {
    Transaction(r.ref, r.account, r.kind, r.points, if r.reward.None? then "" else r.reward.value, r.at)
  }

  datatype InsertResult = ConstraintFailed | Ignored | Inserted(ledger: Ledger)

  /** INSERT ... ON CONFLICT(ref) DO NOTHING: CHECKs come first, then the ref conflict, then the foreign key. */
  function InsertTransaction(l: Ledger, t: Transaction): InsertResult {
    if !ChecksPass(t.kind, t.points) then ConstraintFailed
    else if FindRef(l.rows, t.ref).Some? then Ignored
    else if !HasAccount(l, t.account) then ConstraintFailed
    else Inserted(l.(rows := l.rows + [ToRow(t, NextId(l.rows))]))
  }

  // Balances

  function Signed(kind: Kind, points: int): int {
    match kind
    case Earn => points
    case Spend => -points
    case Redeem => -points
    case Other(_) => 0
  }

  function Effect(r: Row, account: string): int {
    if r.account == account then Signed(r.kind, r.points) else 0
  }

  /** The balance over the integers. */
  function Net(rows: seq<Row>, account: string): int {
    if |rows| == 0 then 0 else Net(Front(rows), account) + Effect(Last(rows), account)
  }

  /** SUM as SQLite computes it: a running 64-bit sum, an error (None) as soon as it overflows. */
  function SqlSum(rows: seq<Row>, account: string): Option<int> {
    if |rows| == 0 then Some(0)
    else match SqlSum(Front(rows), account)
      case None => None
      case Some(s) =>
        var sum := s + Effect(Last(rows), account);
        if MIN_INT64 <= sum <= MAX_INT64 then Some(sum) else None
  }

  /** ORDER BY id DESC over one account's rows. */
  function ListByAccount(rows: seq<Row>, account: string): seq<Row> {
    if |rows| == 0 then []
    else if Last(rows).account == account then [Last(rows)] + ListByAccount(Front(rows), account)
    else ListByAccount(Front(rows), account)
  }
}
