/** The admin overview and an account's ledger, and why both account for every point. */
module Listings {
  import opened Domain
  import opened Sql
  import opened LedgerSpec

  // ORDER BY account_id

  /** Strict lexicographic order: SQLite's BINARY collation. */
  predicate Before(a: string, b: string) {
    |b| > 0 && (|a| == 0 || a[0] < b[0] || (a[0] == b[0] && Before(a[1..], b[1..])))
  }

  /** b goes on where a ends, or a has the smaller character at the first place where they differ. */
  ghost predicate DiffersAt(a: string, b: string, k: nat) {
    k <= |a| && k < |b| && a[..k] == b[..k] && (k == |a| || a[k] < b[k])
  }

  lemma DiffersLater(a: string, b: string, k: nat)
    requires |a| > 0 && |b| > 0 && a[0] == b[0]
    ensures DiffersAt(a, b, k + 1) <==> DiffersAt(a[1..], b[1..], k)
  {
    if k < |a| && k < |b| {
      assert a[..k + 1] == [a[0]] + a[1..][..k] && b[..k + 1] == [b[0]] + b[1..][..k];
    }
  }

  lemma DiffersAtStart(a: string, b: string, k: nat)
    requires DiffersAt(a, b, k) && k > 0
    ensures |a| > 0 && |b| > 0 && a[0] == b[0]
  {
    assert a[0] == a[..k][0] == b[..k][0] == b[0];
  }

  lemma {:induction false} BeforeMeans(a: string, b: string)
    ensures Before(a, b) <==> exists k: nat :: DiffersAt(a, b, k)
  {
    assert a[..0] == b[..0];
    if |a| > 0 && |b| > 0 && a[0] == b[0] {
      BeforeMeans(a[1..], b[1..]);
      if Before(a, b) {
        var k: nat :| DiffersAt(a[1..], b[1..], k);
        DiffersLater(a, b, k);
        assert DiffersAt(a, b, k + 1);
      }
      if k: nat :| DiffersAt(a, b, k) {
        assert k > 0;
        DiffersLater(a, b, k - 1);
      }
    } else {
      assert Before(a, b) <==> DiffersAt(a, b, 0);
      forall k: nat | DiffersAt(a, b, k) ensures k == 0 {
        if k > 0 {
          DiffersAtStart(a, b, k);
        }
      }
    }
  }

  function InsertById(sorted: seq<Account>, a: Account): seq<Account> {
    if |sorted| == 0 || Before(Last(sorted).id, a.id) then sorted + [a]
    else InsertById(Front(sorted), a) + [Last(sorted)]
  }

  function SortById(accounts: seq<Account>): seq<Account> {
    if |accounts| == 0 then [] else InsertById(SortById(Front(accounts)), Last(accounts))
  }

  ghost predicate Ordered(accounts: seq<Account>) {
    forall i, j :: 0 <= i < j < |accounts| ==> Before(accounts[i].id, accounts[j].id)
  }

  lemma {:induction false} BeforeTotal(a: string, b: string)
    ensures a == b || Before(a, b) || Before(b, a)
    ensures !(Before(a, b) && Before(b, a))
  {
    if |a| > 0 && |b| > 0 && a[0] == b[0] {
      BeforeTotal(a[1..], b[1..]);
      assert a == [a[0]] + a[1..] && b == [b[0]] + b[1..];
    }
  }

  lemma {:induction false} BeforeTransitive(a: string, b: string, c: string)
    requires Before(a, b) && Before(b, c)
    ensures Before(a, c)
  {
    if |a| > 0 && a[0] == b[0] == c[0] {
      BeforeTransitive(a[1..], b[1..], c[1..]);
    }
  }

  lemma BeforeAll(sorted: seq<Account>, a: Account)
    requires |sorted| > 0 && Ordered(sorted) && Before(Last(sorted).id, a.id)
    ensures forall i :: 0 <= i < |sorted| ==> Before(sorted[i].id, a.id)
  {
    forall i | 0 <= i < |sorted| ensures Before(sorted[i].id, a.id) {
      if i < |sorted| - 1 {
        BeforeTransitive(sorted[i].id, Last(sorted).id, a.id);
      }
    }
  }

  lemma StaysLast(sorted: seq<Account>, a: Account, placed: seq<Account>)
    requires |sorted| > 0 && Ordered(sorted) && Before(a.id, Last(sorted).id)
    requires Ordered(placed) && multiset(placed) == multiset(Front(sorted)) + multiset{a}
    ensures Ordered(placed + [Last(sorted)])
  {
    forall i | 0 <= i < |placed| ensures Before(placed[i].id, Last(sorted).id) {
      assert placed[i] in multiset(placed);
      if placed[i] != a {
        assert placed[i] in Front(sorted);
      }
    }
  }

  lemma {:induction false} InsertInserts(sorted: seq<Account>, a: Account)
    requires Ordered(sorted) && forall x :: x in sorted ==> x.id != a.id
    ensures multiset(InsertById(sorted, a)) == multiset(sorted) + multiset{a}
    ensures Ordered(InsertById(sorted, a))
  {
    if |sorted| > 0 {
      assert sorted == Front(sorted) + [Last(sorted)];
      if Before(Last(sorted).id, a.id) {
        BeforeAll(sorted, a);
      } else {
        InsertInserts(Front(sorted), a);
        BeforeTotal(Last(sorted).id, a.id);
        StaysLast(sorted, a, InsertById(Front(sorted), a));
      }
    }
  }

  /** The sort only reorders, and orders strictly. */
  lemma {:induction false} SortSorts(accounts: seq<Account>)
    requires DistinctIds(accounts)
    ensures multiset(SortById(accounts)) == multiset(accounts)
    ensures Ordered(SortById(accounts))
  {
    if |accounts| > 0 {
      var rest, last := Front(accounts), Last(accounts);
      assert accounts == rest + [last];
      SortSorts(rest);
      forall x | x in SortById(rest) ensures x.id != last.id {
        assert x in multiset(rest);
        assert x in rest;
      }
      InsertInserts(SortById(rest), last);
    }
  }

  lemma OrderedIsDistinct(accounts: seq<Account>)
    requires Ordered(accounts)
    ensures DistinctIds(accounts)
  {
    forall i, j | 0 <= i < j < |accounts| ensures accounts[i].id != accounts[j].id {
      BeforeTotal(accounts[i].id, accounts[j].id);
    }
  }

  // The queries

  datatype Role = Member | Admin

  function ParseRole(text: string): Option<Role> {
    if text == "member" then Some(Member) else if text == "admin" then Some(Admin) else None
  }

  datatype SummaryRow = SummaryRow(id: string, name: string, role: string, balance: int)
  datatype AccountSummary = AccountSummary(id: string, name: string, role: Role, balance: int)

  /** One correlated SUM per account; an overflow in any of them fails the query. */
  function SummaryRows(accounts: seq<Account>, rows: seq<Row>): Option<seq<SummaryRow>> {
    if |accounts| == 0 then Some([])
    else match SummaryRows(Front(accounts), rows)
      case None => None
      case Some(done) =>
        var a := Last(accounts);
        match SqlSum(rows, a.id)
        case None => None
        case Some(balance) => Some(done + [SummaryRow(a.id, a.name, a.role, balance)])
  }

  function ListAccountsWithBalance(l: Ledger): Option<seq<SummaryRow>> {
    SummaryRows(SortById(l.accounts), l.rows)
  }

  /** ListAccounts: the query's rows with their roles parsed; None is an internal error. */
  function Overview(rows: seq<SummaryRow>): Option<seq<AccountSummary>> {
    if |rows| == 0 then Some([])
    else match Overview(Front(rows))
      case None => None
      case Some(done) =>
        var r := Last(rows);
        match ParseRole(r.role)
        case None => None
        case Some(role) => Some(done + [AccountSummary(r.id, r.name, role, r.balance)])
  }

  function ListAccounts(l: Ledger): Option<seq<AccountSummary>> {
    match ListAccountsWithBalance(l)
    case None => None
    case Some(rows) => Overview(rows)
  }

  /** A ledger entry as listed: the query does not select the reward. */
  function Entry(r: Row): Transaction {
    Transaction(r.ref, r.account, r.kind, r.points, "", r.at)
  }

  function Entries(rows: seq<Row>): seq<Transaction> {
    seq(|rows|, i requires 0 <= i < |rows| => Entry(rows[i]))
  }

  /** Each listed entry is the stored row as a transaction, the reward left out. */
  lemma EntriesAreRows(rows: seq<Row>, k: nat)
    requires k < |rows|
    ensures |Entries(rows)| == |rows| && Entries(rows)[k] == FromRow(rows[k]).(reward := "")
  {
  }

  // Conservation

  function PointsOf(rows: seq<Row>, k: Kind): int {
    if |rows| == 0 then 0
    else PointsOf(Front(rows), k) + if Last(rows).kind == k then Last(rows).points else 0
  }

  function NetOfAll(accounts: seq<Account>, rows: seq<Row>): int {
    if |accounts| == 0 then 0
    else NetOfAll(Front(accounts), rows) + Net(rows, Last(accounts).id)
  }

  function BalanceOfAll(list: seq<AccountSummary>): int {
    if |list| == 0 then 0 else BalanceOfAll(Front(list)) + Last(list).balance
  }

  ghost predicate Listed(accounts: seq<Account>, id: string) {
    exists a :: a in accounts && a.id == id
  }

  lemma ListedOnce(accounts: seq<Account>, id: string)
    requires DistinctIds(accounts) && |accounts| > 0
    ensures DistinctIds(Front(accounts))
    ensures Listed(accounts, id) <==> Last(accounts).id == id || Listed(Front(accounts), id)
    ensures !(Last(accounts).id == id && Listed(Front(accounts), id))
  {
    assert accounts == Front(accounts) + [Last(accounts)];
  }

  /** A row moves exactly one account of a list without repeats. */
  lemma {:induction false} RowMovesOne(accounts: seq<Account>, rows: seq<Row>)
    requires DistinctIds(accounts) && |rows| > 0
    ensures NetOfAll(accounts, rows) == NetOfAll(accounts, Front(rows))
            + if Listed(accounts, Last(rows).account) then Signed(Last(rows).kind, Last(rows).points) else 0
  {
    if |accounts| > 0 {
      ListedOnce(accounts, Last(rows).account);
      RowMovesOne(Front(accounts), rows);
    }
  }

  lemma {:induction false} NoRowsNoPoints(accounts: seq<Account>)
    ensures NetOfAll(accounts, []) == 0
  {
    if |accounts| > 0 {
      NoRowsNoPoints(Front(accounts));
    }
  }

  lemma {:induction false} NetsAddUp(accounts: seq<Account>, rows: seq<Row>)
    requires DistinctIds(accounts)
    requires forall r :: r in rows ==> ChecksPass(r.kind, r.points) && Listed(accounts, r.account)
    ensures NetOfAll(accounts, rows) == PointsOf(rows, Earn) - PointsOf(rows, Spend) - PointsOf(rows, Redeem)
  {
    if |rows| == 0 {
      NoRowsNoPoints(accounts);
    } else {
      NetsAddUp(accounts, Front(rows));
      RowMovesOne(accounts, rows);
      assert Last(rows) in rows;
    }
  }

  lemma OneMoreSummary(done: seq<SummaryRow>, row: SummaryRow)
    requires Overview(done).Some? && ParseRole(row.role).Some?
    ensures var summary := AccountSummary(row.id, row.name, ParseRole(row.role).value, row.balance);
            && Overview(done + [row]) == Some(Overview(done).value + [summary])
            && BalanceOfAll(Overview(done).value + [summary]) == BalanceOfAll(Overview(done).value) + row.balance
  {
    FrontOfAppend(done, row);
    FrontOfAppend(Overview(done).value, AccountSummary(row.id, row.name, ParseRole(row.role).value, row.balance));
  }

  lemma {:induction false} SummariesAreBalances(accounts: seq<Account>, rows: seq<Row>)
    requires RolesHold(accounts)
    ensures SummaryRows(accounts, rows).Some? <==> forall a :: a in accounts ==> SqlSum(rows, a.id).Some?
    ensures SummaryRows(accounts, rows).Some? ==>
              var list := Overview(SummaryRows(accounts, rows).value);
              && list.Some? && |list.value| == |accounts|
              && (forall i :: 0 <= i < |accounts| ==>
                    && list.value[i].id == accounts[i].id && list.value[i].name == accounts[i].name
                    && Some(list.value[i].role) == ParseRole(accounts[i].role)
                    && list.value[i].balance == Net(rows, accounts[i].id))
              && BalanceOfAll(list.value) == NetOfAll(accounts, rows)
  {
    if |accounts| > 0 {
      var rest, last := Front(accounts), Last(accounts);
      assert accounts == rest + [last];
      SummariesAreBalances(rest, rows);
      SqlSumIsNet(rows, last.id);
      if SummaryRows(accounts, rows).Some? {
        var done := SummaryRows(rest, rows).value;
        var row := SummaryRow(last.id, last.name, last.role, SqlSum(rows, last.id).value);
        assert SummaryRows(accounts, rows).value == done + [row];
        assert last.role == accounts[|rest|].role;
        OneMoreSummary(done, row);
      }
    }
  }

  lemma SortedHolds(l: Ledger)
    requires Valid(l)
    ensures var s := SortById(l.accounts);
            && Ordered(s) && DistinctIds(s) && RolesHold(s) && multiset(s) == multiset(l.accounts)
            && forall a :: a in s <==> a in l.accounts
  {
    var s := SortById(l.accounts);
    SortSorts(l.accounts);
    OrderedIsDistinct(s);
    forall a ensures a in s <==> a in l.accounts {
      assert a in s <==> a in multiset(s);
      assert a in l.accounts <==> a in multiset(l.accounts);
    }
    forall i | 0 <= i < |s| ensures s[i].role == "member" || s[i].role == "admin" {
      assert s[i] in l.accounts;
    }
  }

  lemma AllNetsAddUp(l: Ledger)
    requires Valid(l)
    ensures NetOfAll(SortById(l.accounts), l.rows) ==
            PointsOf(l.rows, Earn) - PointsOf(l.rows, Spend) - PointsOf(l.rows, Redeem)
  {
    SortedHolds(l);
    forall r | r in l.rows
      ensures ChecksPass(r.kind, r.points) && Listed(SortById(l.accounts), r.account)
    {
      LookupIsMember(l.accounts, r.account);
    }
    NetsAddUp(SortById(l.accounts), l.rows);
  }

  /** The overview fails exactly when some account's balance cannot be computed; otherwise it lists every
      account once, in id order, with the balance a single read would give, and the listed balances
      add up to all points earned less all points spent and redeemed. */
  lemma OverviewConserves(l: Ledger)
    requires Valid(l)
    ensures ListAccounts(l).Some? <==> forall a :: a in l.accounts ==> SqlSum(l.rows, a.id).Some?
    ensures ListAccounts(l).Some? ==>
              var list := ListAccounts(l).value;
              var s := SortById(l.accounts);
              && Ordered(s) && multiset(s) == multiset(l.accounts) && |list| == |s|
              && (forall i :: 0 <= i < |s| ==>
                    && list[i].id == s[i].id && list[i].name == s[i].name
                    && (list[i].role.Admin? <==> s[i].role == "admin")
                    && (list[i].role.Member? <==> s[i].role == "member")
                    && SqlSum(l.rows, s[i].id) == Some(list[i].balance))
              && BalanceOfAll(list) == PointsOf(l.rows, Earn) - PointsOf(l.rows, Spend) - PointsOf(l.rows, Redeem)
  {
    var s := SortById(l.accounts);
    SortedHolds(l);
    SummariesAreBalances(s, l.rows);
    AllNetsAddUp(l);
    forall i | 0 <= i < |s| ensures SqlSum(l.rows, s[i].id).Some? ==> SqlSum(l.rows, s[i].id) == Some(Net(l.rows, s[i].id)) {
      SqlSumIsNet(l.rows, s[i].id);
    }
    forall i | 0 <= i < |s| && ListAccounts(l).Some? ensures SqlSum(l.rows, s[i].id).Some? {
      assert s[i] in s;
    }
  }

  // An account's ledger

  /** The balance told by a listing, read from its oldest entry. */
  function Tally(listing: seq<Row>): int {
    if |listing| == 0 then 0 else Signed(listing[0].kind, listing[0].points) + Tally(listing[1..])
  }

  /** The same, read from the entries that a caller is shown. */
  function TallyEntries(entries: seq<Transaction>): int {
    if |entries| == 0 then 0 else Signed(entries[0].kind, entries[0].points) + TallyEntries(entries[1..])
  }

  lemma {:induction false} EntriesTally(rows: seq<Row>)
    ensures TallyEntries(Entries(rows)) == Tally(rows)
  {
    if |rows| > 0 {
      EntriesTally(rows[1..]);
      assert Entries(rows)[1..] == Entries(rows[1..]);
    }
  }

  function RowsOfAll(accounts: seq<Account>, rows: seq<Row>): multiset<Row> {
    if |accounts| == 0 then multiset{}
    else RowsOfAll(Front(accounts), rows) + multiset(ListByAccount(rows, Last(accounts).id))
  }

  /** A listing is exactly the account's rows, newest first. */
  lemma {:induction false} ListingIsExact(rows: seq<Row>, a: string)
    requires KeysHold(rows)
    ensures var listing := ListByAccount(rows, a);
            && (forall r :: r in listing <==> r in rows && r.account == a)
            && (forall i, j :: 0 <= i < j < |listing| ==> listing[i].id > listing[j].id)
  {
    if |rows| > 0 {
      ListingIsExact(Front(rows), a);
      assert rows == Front(rows) + [Last(rows)];
      var rest := ListByAccount(Front(rows), a);
      forall j | 0 <= j < |rest| ensures rest[j].id < Last(rows).id {
        assert rest[j] in Front(rows);
      }
    }
  }

  /** Read from the oldest entry on, the running balance is never negative and ends at the account's balance. */
  lemma {:induction false} ListingTellsBalance(rows: seq<Row>, a: string)
    requires Solvent(rows)
    ensures var listing := ListByAccount(rows, a);
            && Tally(listing) == Net(rows, a)
            && forall j :: 0 <= j <= |listing| ==> Tally(listing[j..]) >= 0
  {
    var listing := ListByAccount(rows, a);
    if |rows| > 0 {
      var rest := ListByAccount(Front(rows), a);
      ListingTellsBalance(Front(rows), a);
      if Last(rows).account == a {
        assert listing[1..] == rest;
        forall j | 0 <= j <= |listing| ensures Tally(listing[j..]) >= 0 {
          if j == 0 {
            assert listing[0..] == listing;
          } else {
            assert listing[j..] == rest[j - 1..];
          }
        }
      }
    }
  }

  lemma {:induction false} RowListedOnce(accounts: seq<Account>, rows: seq<Row>)
    requires DistinctIds(accounts) && |rows| > 0
    ensures RowsOfAll(accounts, rows) == RowsOfAll(accounts, Front(rows))
            + if Listed(accounts, Last(rows).account) then multiset{Last(rows)} else multiset{}
  {
    if |accounts| > 0 {
      ListedOnce(accounts, Last(rows).account);
      RowListedOnce(Front(accounts), rows);
    }
  }

  lemma {:induction false} NoRowsNoListing(accounts: seq<Account>)
    ensures RowsOfAll(accounts, []) == multiset{}
  {
    if |accounts| > 0 {
      NoRowsNoListing(Front(accounts));
    }
  }

  /** Every row of the ledger is in exactly one account's listing. */
  lemma {:induction false} ListingsPartition(accounts: seq<Account>, rows: seq<Row>)
    requires DistinctIds(accounts)
    requires forall r :: r in rows ==> Lookup(accounts, r.account).Some?
    ensures RowsOfAll(accounts, rows) == multiset(rows)
  {
    if |rows| == 0 {
      NoRowsNoListing(accounts);
    } else {
      assert rows == Front(rows) + [Last(rows)];
      ListingsPartition(accounts, Front(rows));
      RowListedOnce(accounts, rows);
      LookupIsMember(accounts, Last(rows).account);
    }
  }
}
