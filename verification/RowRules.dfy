/** What becomes of a CSV row, read off its text and the tables. */
module RowRules {
  import opened Domain
  import opened Sql
  import opened LedgerSpec
  import opened Answers
  import opened Batch
  import opened BatchLaws

  /** The entry of a row that does not parse: its own first fields, as far as there are any, and what is wrong with it. */
  ghost predicate Unread(fields: seq<string>, at: Option<Time>, e: AuditEntry) {
    && e.outcome == Rejected && e.points == 0 && Flaw(fields, at, e.reason)
    && e.ref == (if |fields| > 0 then fields[0] else "")
    && e.account == (if |fields| > 1 then fields[1] else "")
    && e.kind == (if |fields| > 2 then fields[2] else "")
  }

  ghost predicate VerdictTold(v: Verdict, e: AuditEntry) {
    match v
    case AccountUnknown => e.outcome == Rejected && e.reason == "account not found"
    case AlreadyThere => e.outcome == Duplicate && e.reason == "duplicate ref"
    case SumOverflows => e.outcome == Rejected && e.reason == "rejected"
    case TooFew => e.outcome == Rejected && e.reason == "insufficient balance"
    case GoesThrough => e.outcome == Accepted && e.reason == "ok"
  }

  ghost predicate SubmittedTold(l: Ledger, t: Transaction, f: Fault, after: Ledger, e: AuditEntry) {
    if Bites(l, t, f) then after == l && e.outcome == Rejected && e.reason == "rejected"
    else VerdictTold(VerdictOn(l, t), e) && if VerdictOn(l, t).GoesThrough? then Adds(l, after, t) else after == l
  }

  /** What one read of the file does to the ledger, and the entry it leaves. */
  ghost predicate RowTold(l: Ledger, r: ReadResult, f: Fault, after: Ledger, e: AuditEntry) {
    match r
    case Malformed => after == l && e == AuditEntry("", "", "", 0, Rejected, "malformed row")
    case Fields(fields, at) =>
      if !WellFormedRow(fields, at) then after == l && Unread(fields, at, e)
      else
        && e.ref == fields[0] && e.account == fields[1] && e.kind == fields[2] && PointsText(fields[3], e.points)
        && if fields[0] == "" || fields[1] == "" then after == l && e.outcome == Rejected && e.reason == "rejected"
           else
             var kind := if fields[2] == "earn" then Earn else Spend;
             SubmittedTold(l, Transaction(fields[0], fields[1], kind, e.points, "", at.value), f, after, e)
  }

  lemma SubmissionIsTold(l: Ledger, t: Transaction, f: Fault)
    requires Valid(l) && Usable(Submit(t))
    ensures var (after, e) := RowStep(l, Submit(t), f);
            SubmittedTold(l, t, f, after, e) && e.ref == t.ref && e.account == t.account && e.points == t.points
  {
    FaultBites(l, t, f);
    RecordTells(l, t);
  }

  /** Every row is decided by its text and the tables: refused for the first thing wrong with it, refused for an
      empty ref or account, or recorded, replayed or refused as the ledger has it; the entry says which. */
  lemma RowIsDecided(l: Ledger, r: ReadResult, f: Fault)
    requires Valid(l)
    ensures RowTold(l, r, f, RowStep(l, PlanFor(r), f).0, RowStep(l, PlanFor(r), f).1)
  {
    if r.Fields? {
      RowsAreDecided(r.fields, r.at);
      var parsed := ParseRow(r.fields, r.at);
      if parsed.Good? && InputOk(parsed.txn) {
        SubmissionIsTold(l, parsed.txn, f);
      }
    }
  }

  lemma NextRow(l: Ledger, file: seq<Item>, k: nat)
    requires k < |file|
    ensures RunFile(l, file[..k + 1]).ledger
            == RowStep(RunFile(l, file[..k]).ledger, file[k].plan, file[k].fault).0
  {
    assert Front(file[..k + 1]) == file[..k];
  }

  /** In an upload each row is decided so on the ledger that the rows before it leave. */
  lemma {:induction false} UploadIsDecided(l: Ledger, records: seq<ReadResult>, file: seq<Item>, k: nat)
    requires Valid(l) && |records| == |file| && forall i :: 0 <= i < |file| ==> file[i].plan == PlanFor(records[i])
    requires k < |file|
    ensures RowTold(RunFile(l, file[..k]).ledger, records[k], file[k].fault,
                    RunFile(l, file[..k + 1]).ledger, RunFile(l, file).entries[k])
  {
    RunAt(l, file, k);
    RowIsDecided(RunFile(l, file[..k]).ledger, records[k], file[k].fault);
    NextRow(l, file, k);
  }
}
