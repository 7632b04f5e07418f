/** What each call answers, in terms of the tables alone. */
module Answers {
  import opened Domain
  import opened Sql
  import opened LedgerSpec
  import opened Listings
  import opened Operations
  import opened Overflow

  /** The account's balance has stayed within 64 bits through its whole history. */
  ghost predicate WithinRange(rows: seq<Row>, account: string) {
    forall k: nat :: k <= |rows| ==> Net(rows[..k], account) <= MAX_INT64
  }

  lemma ListedIsKnown(l: Ledger, id: string)
    ensures Listed(l.accounts, id) <==> HasAccount(l, id)
  {
    LookupIsMember(l.accounts, id);
  }

  // Balance

  ghost predicate BalanceTold(l: Ledger, account: string, resp: Response) {
    && (resp == Refused(NotFound) <==> !Listed(l.accounts, account))
    && (resp == BalanceIs(Net(l.rows, account)) <==> Listed(l.accounts, account) && WithinRange(l.rows, account))
    && (resp == Refused(Internal) <==> Listed(l.accounts, account) && !WithinRange(l.rows, account))
  }

  /** A balance read answers the account's balance, unless the account is unknown or its sum overflows. */
  lemma BalanceTells(l: Ledger, account: string)
    requires Valid(l)
    ensures BalanceTold(l, account, Exec(l, BalanceOp(account)).1)
  {
    ListedIsKnown(l, account);
    PeakDecides(l.rows, account);
    SqlSumIsNet(l.rows, account);
  }

  // One account's ledger

  ghost predicate Shows(e: Transaction, r: Row) {
    e.ref == r.ref && e.account == r.account && e.kind == r.kind && e.points == r.points && e.at == r.at && e.reward == ""
  }

  /** `places` says where in the table each entry stands: all the account's rows and no others, newest first. */
  ghost predicate ListsRows(rows: seq<Row>, account: string, entries: seq<Transaction>, places: seq<nat>) {
    && |places| == |entries|
    && (forall k :: 0 <= k < |places| ==>
          places[k] < |rows| && rows[places[k]].account == account && Shows(entries[k], rows[places[k]]))
    && (forall j, k :: 0 <= j < k < |places| ==> places[j] > places[k])
    && (forall i: nat :: i < |rows| && rows[i].account == account ==> i in places)
  }

  ghost predicate ListingTold(l: Ledger, account: string, resp: Response) {
    && (resp == Refused(NotFound) <==> !Listed(l.accounts, account))
    && (Listed(l.accounts, account) ==>
          && resp.EntriesAre?
          && (exists places :: ListsRows(l.rows, account, resp.entries, places))
          && TallyEntries(resp.entries) == Net(l.rows, account))
  }

  lemma SameRowsLater(rows: seq<Row>, account: string, entries: seq<Transaction>, places: seq<nat>)
    requires |rows| > 0 && ListsRows(Front(rows), account, entries, places) && Last(rows).account != account
    ensures ListsRows(rows, account, entries, places)
  {
    forall i: nat | i < |rows| && rows[i].account == account ensures i in places {
      assert Front(rows)[i] == rows[i];
    }
  }

  lemma NewestComesFirst(rows: seq<Row>, entries: seq<Transaction>, places: seq<nat>)
    requires |rows| > 0 && ListsRows(Front(rows), Last(rows).account, entries, places)
    ensures ListsRows(rows, Last(rows).account, [Entry(Last(rows))] + entries, [|rows| - 1] + places)
  {
    var more, at := [Entry(Last(rows))] + entries, [|rows| - 1] + places;
    forall k | 0 <= k < |at|
      ensures at[k] < |rows| && rows[at[k]].account == Last(rows).account && Shows(more[k], rows[at[k]])
      ensures k > 0 ==> at[k] == places[k - 1] < |rows| - 1
    {
      if k > 0 {
        assert at[k] == places[k - 1] && more[k] == entries[k - 1];
      }
    }
    forall i: nat | i < |rows| && rows[i].account == Last(rows).account ensures i in at {
      if i < |rows| - 1 {
        assert Front(rows)[i] == rows[i] && i in places;
      } else {
        assert at[0] == i;
      }
    }
  }

  lemma EntriesOfMore(r: Row, rows: seq<Row>)
    ensures Entries([r] + rows) == [Entry(r)] + Entries(rows)
  {
  }

  lemma {:induction false} PlacesOf(rows: seq<Row>, account: string) returns (entries: seq<Transaction>, places: seq<nat>)
    ensures entries == Entries(ListByAccount(rows, account)) && ListsRows(rows, account, entries, places)
  {
    if |rows| == 0 {
      entries, places := [], [];
    } else {
      var last := Last(rows);
      entries, places := PlacesOf(Front(rows), account);
      if last.account == account {
        EntriesOfMore(last, ListByAccount(Front(rows), account));
        NewestComesFirst(rows, entries, places);
        entries, places := [Entry(last)] + entries, [|rows| - 1] + places;
      } else {
        SameRowsLater(rows, account, entries, places);
      }
    }
  }

  /** A listing shows each of the account's rows once, newest first, as it was stored but for the reward,
      and its entries add up to the balance. */
  lemma ListingTells(l: Ledger, account: string)
    requires Valid(l)
    ensures ListingTold(l, account, Exec(l, ListOp(account)).1)
  {
    ListedIsKnown(l, account);
    var entries, places := PlacesOf(l.rows, account);
    EntriesTally(ListByAccount(l.rows, account));
    ListingTellsBalance(l.rows, account);
  }

  // All accounts

  ghost predicate Summarises(s: AccountSummary, a: Account, rows: seq<Row>) {
    && s.id == a.id && s.name == a.name && s.balance == Net(rows, a.id)
    && (s.role.Admin? <==> a.role == "admin") && (s.role.Member? <==> a.role == "member")
  }

  /** The overview shows every account once, `sorted` by id. */
  ghost predicate ListsAccountsAs(l: Ledger, list: seq<AccountSummary>, sorted: seq<Account>) {
    && Ordered(sorted) && multiset(sorted) == multiset(l.accounts) && |list| == |sorted|
    && forall i :: 0 <= i < |list| ==> Summarises(list[i], sorted[i], l.rows)
  }

  /** No account's sum overflows. */
  ghost predicate AllWithinRange(l: Ledger) {
    forall a :: a in l.accounts ==> WithinRange(l.rows, a.id)
  }

  ghost predicate ListsAccounts(l: Ledger, list: seq<AccountSummary>) {
    && (exists sorted :: ListsAccountsAs(l, list, sorted))
    && BalanceOfAll(list) == PointsOf(l.rows, Earn) - PointsOf(l.rows, Spend) - PointsOf(l.rows, Redeem)
  }

  ghost predicate OverviewTold(l: Ledger, resp: Response) {
    if AllWithinRange(l) then resp.AccountsAre? && ListsAccounts(l, resp.accounts) else resp == Refused(Internal)
  }

  lemma OverviewLists(l: Ledger)
    requires Valid(l) && ListAccounts(l).Some?
    ensures ListsAccounts(l, ListAccounts(l).value)
  {
    var list, sorted := ListAccounts(l).value, SortById(l.accounts);
    OverviewConserves(l);
    forall i | 0 <= i < |list| ensures Summarises(list[i], sorted[i], l.rows) {
      SqlSumIsNet(l.rows, sorted[i].id);
    }
    assert ListsAccountsAs(l, list, sorted);
  }

  lemma OverviewSucceeds(l: Ledger)
    requires Valid(l)
    ensures ListAccounts(l).Some? <==> AllWithinRange(l)
  {
    OverviewConserves(l);
    forall id ensures SqlSum(l.rows, id).Some? <==> WithinRange(l.rows, id) {
      PeakDecides(l.rows, id);
    }
  }

  /** The overview shows every account once, in id order, with its stored name and role and its balance;
      it fails exactly when some account's sum overflows. */
  lemma OverviewTells(l: Ledger)
    requires Valid(l)
    ensures OverviewTold(l, Exec(l, OverviewOp).1)
  {
    var overview, resp := ListAccounts(l), Exec(l, OverviewOp).1;
    OverviewSucceeds(l);
    if overview.Some? {
      assert resp == AccountsAre(overview.value);
      OverviewLists(l);
    } else {
      assert resp == Refused(Internal);
    }
  }

  /** The overview and the balance read show the same number. */
  lemma OverviewShowsReads(l: Ledger, i: nat)
    requires Valid(l) && Exec(l, OverviewOp).1.AccountsAre? && i < |Exec(l, OverviewOp).1.accounts|
    ensures var shown := Exec(l, OverviewOp).1.accounts[i];
            Exec(l, BalanceOp(shown.id)).1 == BalanceIs(shown.balance)
  {
    var list, sorted := Exec(l, OverviewOp).1.accounts, SortById(l.accounts);
    OverviewConserves(l);
    assert sorted[i] in multiset(l.accounts);
    LookupIsMember(l.accounts, sorted[i].id);
  }

  lemma NewSumIsZero(l: Ledger, id: string)
    requires Valid(l) && !HasAccount(l, id)
    ensures WithinRange(l.rows, id) && Net(l.rows, id) == 0
  {
    NoRowsYet(l, l.rows, id);
    SqlSumIsNet(l.rows, id);
    PeakDecides(l.rows, id);
  }

  /** Opening an account makes no sum fail. */
  lemma OverviewStays(l: Ledger, a: Account)
    requires Valid(l) && !HasAccount(l, a.id) && ListAccounts(l).Some?
    requires Valid(l.(accounts := l.accounts + [a]))
    ensures ListAccounts(l.(accounts := l.accounts + [a])).Some?
  {
    var after := l.(accounts := l.accounts + [a]);
    OverviewSucceeds(l);
    NewSumIsZero(l, a.id);
    assert forall x :: x in after.accounts ==> x == a || x in l.accounts;
    OverviewSucceeds(after);
  }

  /** What the overview shows of one of its accounts. */
  lemma ShownSomewhere(l: Ledger, a: Account)
    requires Valid(l) && ListAccounts(l).Some? && a in l.accounts
    ensures exists s :: s in ListAccounts(l).value && Summarises(s, a, l.rows)
  {
    var list, sorted := ListAccounts(l).value, SortById(l.accounts);
    OverviewConserves(l);
    assert a in multiset(l.accounts) && multiset(l.accounts) == multiset(sorted);
    var i :| 0 <= i < |sorted| && sorted[i] == a;
    SqlSumIsNet(l.rows, a.id);
    assert Summarises(list[i], a, l.rows);
  }

  /** An account just opened shows in the overview as a member without points. */
  lemma NewAccountShows(l: Ledger, op: Op)
    requires Valid(l) && op.CreateOp? && !HasAccount(l, op.id) && ListAccounts(l).Some?
    ensures var list := ListAccounts(Exec(l, op).0);
            list.Some? && AccountSummary(op.id, op.name, Member, 0) in list.value
  {
    var a := NewAccount(op);
    var after := l.(accounts := l.accounts + [a]);
    ExecKeepsValid(l, op);
    assert Exec(l, op).0 == after;
    OverviewStays(l, a);
    ShownSomewhere(after, a);
    NewSumIsZero(l, op.id);
  }

  // Recording

  datatype Verdict = AccountUnknown | AlreadyThere | SumOverflows | TooFew | GoesThrough

  ghost predicate Taken(rows: seq<Row>, ref: string) {
    exists r :: r in rows && r.ref == ref
  }

  /** What becomes of a transaction with valid fields, read off the tables. */
  ghost function VerdictOn(l: Ledger, t: Transaction): Verdict {
    if !Listed(l.accounts, t.account) then AccountUnknown
    else if Taken(l.rows, t.ref) then AlreadyThere
    else if t.kind == Earn then GoesThrough
    else if !WithinRange(l.rows, t.account) then SumOverflows
    else if Net(l.rows, t.account) < t.points then TooFew
    else GoesThrough
  }

  /** The transaction is the one new row. */
  ghost predicate Adds(l: Ledger, after: Ledger, t: Transaction) {
    && after.accounts == l.accounts && |after.rows| == |l.rows| + 1 && l.rows == Front(after.rows)
    && var r := Last(after.rows);
       && r.ref == t.ref && r.account == t.account && r.kind == t.kind && r.points == t.points
       && r.at == Time(t.at.second, 0) && r.reward == (if t.reward == "" then None else Some(t.reward))
  }

  ghost predicate RecordTold(l: Ledger, t: Transaction, after: Ledger, o: Outcome) {
    match VerdictOn(l, t)
    case AccountUnknown => after == l && o == Failed(NotFound)
    case AlreadyThere =>
      after == l && o.Stored? && !o.created && exists r :: r in l.rows && r.ref == t.ref && o.txn == FromRow(r)
    case SumOverflows => after == l && o == Failed(Internal)
    case TooFew => after == l && o == Failed(InsufficientBalance)
    case GoesThrough => Adds(l, after, t) && o == Stored(t.(at := Time(t.at.second, 0)), true)
  }

  lemma TakenIsFound(rows: seq<Row>, ref: string)
    ensures Taken(rows, ref) <==> FindRef(rows, ref).Some?
  {
    FindRefIsMember(rows, ref);
  }

  /** Recording answers what the tables say of the transaction. */
  lemma RecordTells(l: Ledger, t: Transaction)
    requires Valid(l) && ChecksPass(t.kind, t.points)
    ensures RecordTold(l, t, Record(l, t).0, Record(l, t).1)
  {
    ListedIsKnown(l, t.account);
    TakenIsFound(l.rows, t.ref);
    PeakDecides(l.rows, t.account);
    RecordOutcomes(l, t);
    FindRefIsMember(l.rows, t.ref);
    FrontOfAppend(l.rows, ToRow(t, NextId(l.rows)));
  }
}
