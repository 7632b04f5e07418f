/** The store's operations as single atomic steps: the sequential meaning that every schedule is measured by. */
module Operations {
  import opened Domain
  import opened Sql
  import opened LedgerSpec
  import opened Listings

  datatype Op =
    | RecordOp(txn: Transaction)
    | BalanceOp(account: string)
    | ListOp(account: string)
    | OverviewOp
    | CreateOp(id: string, name: string, passwordHash: Option<string>, now: Time)

  datatype Response =
    | Recorded(outcome: Outcome)
    | BalanceIs(balance: int)
    | EntriesAre(entries: seq<Transaction>)
    | AccountsAre(accounts: seq<AccountSummary>)
    | Opened(id: string, name: string, createdAt: Time)
    | Refused(error: Error)

  /** A new account takes the table defaults: role member, and the second-precision clock. */
  function NewAccount(op: Op): Account
    requires op.CreateOp?
  {
    Account(op.id, op.name, op.passwordHash, "member", Canonical(op.now))
  }

  function OpenedOf(a: Account): Response {
    Opened(a.id, a.name, a.createdAt)
  }

  function BalanceAnswer(l: Ledger, account: string): Response {
    match SqlSum(l.rows, account)
    case None => Refused(Internal)
    case Some(b) => BalanceIs(b)
  }

  function ListAnswer(l: Ledger, account: string): Response {
    EntriesAre(Entries(ListByAccount(l.rows, account)))
  }

  function Exec(l: Ledger, op: Op): (Ledger, Response) {
    match op
    case RecordOp(t) => var (after, o) := Record(l, t); (after, Recorded(o))
    case BalanceOp(a) => (l, if HasAccount(l, a) then BalanceAnswer(l, a) else Refused(NotFound))
    case ListOp(a) => (l, if HasAccount(l, a) then ListAnswer(l, a) else Refused(NotFound))
    case OverviewOp => (l, match ListAccounts(l) case None => Refused(Internal) case Some(list) => AccountsAre(list))
    case CreateOp(_, _, _, _) =>
      match InsertAccount(l, NewAccount(op))
      case None => (l, Refused(AccountExists))
      case Some(after) => (after, OpenedOf(NewAccount(op)))
  }

  lemma ExecExtends(l: Ledger, op: Op)
    ensures Extends(l, Exec(l, op).0)
    ensures forall id :: HasAccount(l, id) ==> Lookup(Exec(l, op).0.accounts, id) == Lookup(l.accounts, id)
  {
    if op.CreateOp? {
      FrontOfAppend(l.accounts, NewAccount(op));
    }
  }

  /** Every operation keeps the ledger's invariant. */
  lemma ExecKeepsValid(l: Ledger, op: Op)
    requires Valid(l)
    ensures Valid(Exec(l, op).0)
  {
    if op.RecordOp? {
      RecordKeepsValid(l, op.txn);
    } else if op.CreateOp? {
      LookupIsMember(l.accounts, op.id);
      ExecExtends(l, op);
    }
  }

  /** Creation answers with the stored account exactly when the id was free; the account then is a member with a
      second-precision creation time, an empty ledger and a zero balance, and no other account has changed. */
  lemma CreateOutcomes(l: Ledger, id: string, name: string, hash: Option<string>, now: Time)
    requires Valid(l)
    ensures var (after, resp) := Exec(l, CreateOp(id, name, hash, now));
            if HasAccount(l, id) then after == l && resp == Refused(AccountExists)
            else
              && resp == Opened(id, name, Time(now.second, 0))
              && Lookup(after.accounts, id) == Some(Account(id, name, hash, "member", Time(now.second, 0)))
              && (forall x :: x != id ==> Lookup(after.accounts, x) == Lookup(l.accounts, x))
              && Exec(after, BalanceOp(id)).1 == BalanceIs(0) && Exec(after, ListOp(id)).1 == EntriesAre([])
  {
    if !HasAccount(l, id) {
      FrontOfAppend(l.accounts, NewAccount(CreateOp(id, name, hash, now)));
      NoRowsYet(l, l.rows, id);
    }
  }

  lemma {:induction false} NoRowsYet(l: Ledger, rows: seq<Row>, id: string)
    requires rows <= l.rows && RowsHold(l) && !HasAccount(l, id)
    ensures SqlSum(rows, id) == Some(0) && ListByAccount(rows, id) == []
  {
    if |rows| > 0 {
      assert Last(rows) == l.rows[|rows| - 1];
      NoRowsYet(l, Front(rows), id);
    }
  }
}
