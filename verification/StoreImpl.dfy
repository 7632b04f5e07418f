/** The store as the program runs it: tables that statements update in place, one open transaction at most. */
module StoreImpl {
  import opened Domain
  import opened Sql
  import opened LedgerSpec
  import opened Listings
  import opened Operations
  import opened Answers
  import opened Batch

  /** A row of audit_log. */
  datatype AuditRow = AuditRow(id: nat, entry: AuditEntry, createdAt: Time)

  function EntriesOf(log: seq<AuditRow>): seq<AuditEntry> {
    seq(|log|, i requires 0 <= i < |log| => log[i].entry)
  }

  /** ORDER BY id DESC; the empty account id means all rows. */
  function AuditListing(log: seq<AuditRow>, account: string): seq<AuditRow> {
    if |log| == 0 then []
    else if account == "" || Last(log).entry.account == account then [Last(log)] + AuditListing(Front(log), account)
    else AuditListing(Front(log), account)
  }

  ghost predicate AuditIdsHold(log: seq<AuditRow>) {
    forall i, j :: 0 <= i < j < |log| ==> log[i].id < log[j].id
  }

  lemma {:induction false} AuditListingHolds(log: seq<AuditRow>, account: string)
    ensures forall r :: r in AuditListing(log, account) <==> r in log && (account == "" || r.entry.account == account)
  {
    if |log| > 0 {
      AuditListingHolds(Front(log), account);
      assert forall r :: r in log <==> r in Front(log) || r == Last(log) by {
        assert log == Front(log) + [Last(log)];
      }
    }
  }

  /** The audit trail of an account, newest first, is exactly its attempts. */
  lemma {:induction false} AuditListingIsExact(log: seq<AuditRow>, account: string)
    requires AuditIdsHold(log)
    ensures var listing := AuditListing(log, account);
            && (forall r :: r in listing <==> r in log && (account == "" || r.entry.account == account))
            && (forall i, j :: 0 <= i < j < |listing| ==> listing[i].id > listing[j].id)
  {
    AuditListingHolds(log, account);
    if |log| > 0 {
      var rest := AuditListing(Front(log), account);
      AuditListingIsExact(Front(log), account);
      forall j | 0 <= j < |rest| ensures rest[j].id < Last(log).id {
        assert rest[j] in Front(log);
      }
    }
  }

  lemma {:induction false} OverviewFails(rows: seq<SummaryRow>, k: nat)
    requires k <= |rows| && Overview(rows[..k]).None?
    ensures Overview(rows).None?
  {
    if k < |rows| {
      assert Front(rows)[..k] == rows[..k];
      OverviewFails(Front(rows), k);
    } else {
      assert rows[..k] == rows;
    }
  }

  class Store {
    var committed: Ledger
    var working: Option<Ledger>  // the open transaction's view
    var auditLog: seq<AuditRow>

    ghost predicate Valid()
      reads this
    {
      working.None? && LedgerSpec.Valid(committed) && AuditIdsHold(auditLog)
    }

    constructor (l: Ledger)
      requires LedgerSpec.Valid(l)
      ensures Valid() && committed == l && auditLog == []
    {
      committed, working, auditLog := l, None, [];
    }

    /** One transaction, insert first and check afterwards; whatever is still open at the end is rolled back. */
    method RecordTransaction(t: Transaction, f: Fault) returns (o: Outcome)
      requires Valid()
      modifies this`committed, this`working
      ensures Valid()
      ensures (committed, o) == RecordWith(old(committed), t, f)
    {
      RecordKeepsValid(committed, t);
      FaultIsAllOrNothing(committed, t, f);
      if f == AtBegin {
        return Failed(Internal);
      }
      working := Some(committed);
      o := InTransaction(t, f);
      working := None;
    }

    method InTransaction(t: Transaction, f: Fault) returns (o: Outcome)
      requires working == Some(committed) && LedgerSpec.Valid(committed) && f != AtBegin
      modifies this`committed, this`working
      ensures (committed, o) == RecordWith(old(committed), t, f)
    {
      ghost var before := committed;
      RecordOutcomes(before, t);
      if f == AtExists {
        return Failed(Internal);
      }
      if !HasAccount(working.value, t.account) {
        return Failed(NotFound);
      }
      var insert := InsertTransaction(working.value, t);
      if f == AtInsert || f == AtAffected || insert.ConstraintFailed? {
        return Failed(Internal);
      }
      var affected := 0;
      if insert.Inserted? {
        working, affected := Some(insert.ledger), 1;
        FrontOfAppend(before.rows, ToRow(t, NextId(before.rows)));
      }
      if affected == 1 && (t.kind == Spend || t.kind == Redeem) {
        var balance := SqlSum(working.value.rows, t.account);
        if f == AtGuard || balance.None? {
          return Failed(Internal);
        }
        if balance.value < 0 {
          working := None;
          return Failed(if f == AtRollback then Internal else InsufficientBalance);
        }
      }
      var row := FindRef(working.value.rows, t.ref);
      if f == AtReadBack || row.None? || f == AtCommit {
        return Failed(Internal);
      }
      committed, working := working.value, None;
      o := Stored(FromRow(row.value), affected == 1);
    }

    /** A new account, unless its id is taken. */
    method CreateAccount(id: string, name: string, passwordHash: Option<string>, now: Time) returns (e: Option<Error>)
      requires Valid()
      modifies this`committed
      ensures Valid()
      ensures var (after, resp) := Exec(old(committed), CreateOp(id, name, passwordHash, now));
              committed == after && (e.None? <==> resp.Opened?) && (e.Some? ==> resp == Refused(e.value))
    {
      ExecKeepsValid(committed, CreateOp(id, name, passwordHash, now));
      var after := InsertAccount(committed, NewAccount(CreateOp(id, name, passwordHash, now)));
      if after.None? {
        return Some(AccountExists);
      }
      committed := after.value;
      e := None;
    }

    /** Existence first, then the sum. */
    method Balance(id: string) returns (resp: Response)
      requires Valid()
      ensures resp == Exec(committed, BalanceOp(id)).1
      ensures BalanceTold(committed, id, resp)
    {
      BalanceTells(committed, id);
      if !HasAccount(committed, id) {
        return Refused(NotFound);
      }
      var sum := SqlSum(committed.rows, id);
      resp := if sum.None? then Refused(Internal) else BalanceIs(sum.value);
    }

    /** The account's entries, one appended per row of the query. */
    method ListTransactions(id: string) returns (resp: Response)
      requires Valid()
      ensures resp == Exec(committed, ListOp(id)).1
      ensures ListingTold(committed, id, resp)
    {
      ListingTells(committed, id);
      if !HasAccount(committed, id) {
        return Refused(NotFound);
      }
      var rows := ListByAccount(committed.rows, id);
      var out: seq<Transaction> := [];
      for k := 0 to |rows|
        invariant out == Entries(rows[..k])
      {
        out := out + [Entry(rows[k])];
      }
      assert rows[..|rows|] == rows;
      resp := EntriesAre(out);
    }

    /** The overview, one summary appended per row of the query; an unknown stored role fails it. */
    method ListAccounts() returns (resp: Response)
      requires Valid()
      ensures resp == Exec(committed, OverviewOp).1
      ensures OverviewTold(committed, resp)
    {
      OverviewTells(committed);
      var query := ListAccountsWithBalance(committed);
      if query.None? {
        return Refused(Internal);
      }
      var rows := query.value;
      var out: seq<AccountSummary> := [];
      for k := 0 to |rows|
        invariant Overview(rows[..k]) == Some(out)
      {
        var role := ParseRole(rows[k].role);
        assert Front(rows[..k + 1]) == rows[..k];
        if role.None? {
          OverviewFails(rows, k + 1);
          return Refused(Internal);
        }
        out := out + [AccountSummary(rows[k].id, rows[k].name, role.value, rows[k].balance)];
      }
      assert rows[..|rows|] == rows;
      resp := AccountsAre(out);
    }

    /** One audit row, by a statement of its own: the ledger is out of its reach. */
    method AppendAudit(e: AuditEntry, now: Time, works: bool) returns (ok: bool)
      requires Valid() && !e.outcome.Unknown?
      modifies this`auditLog
      ensures Valid() && ok == works
      ensures old(auditLog) <= auditLog
      ensures EntriesOf(auditLog) == EntriesOf(old(auditLog)) + if works then [e] else []
      ensures works ==> Last(auditLog).createdAt == Time(now.second, 0)
    {
      if works {
        var id := if |auditLog| == 0 then 1 else Last(auditLog).id + 1;
        auditLog := auditLog + [AuditRow(id, e, Canonical(now))];
      }
      ok := works;
    }

    /** The account's attempts, or all of them, and nothing else, newest first. */
    method ListAudit(account: string) returns (out: seq<AuditRow>)
      requires Valid()
      ensures forall r :: r in out <==> r in auditLog && (account == "" || r.entry.account == account)
      ensures forall i, j :: 0 <= i < j < |out| ==> out[i].id > out[j].id
    {
      var rows := AuditListing(auditLog, account);
      AuditListingIsExact(auditLog, account);
      out := [];
      for k := 0 to |rows|
        invariant out == rows[..k]
      {
        out := out + [rows[k]];
      }
      assert out == rows;
    }
  }
}
