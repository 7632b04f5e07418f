/** The handlers as the program runs them, over the store. */
module Server {
  import opened Domain
  import opened Sql
  import opened LedgerSpec
  import opened Operations
  import opened Batch
  import opened BatchLaws
  import opened Access
  import opened RowRules
  import opened Statuses
  import opened StoreImpl

  /** The counters an upload updates through a pointer. */
  class Counters {
    var processed: nat
    var accepted: nat
    var rejected: nat
    var duplicates: nat

    constructor ()
      ensures Value() == Summary(0, 0, 0, 0)
    {
      processed, accepted, rejected, duplicates := 0, 0, 0, 0;
    }

    function Value(): Summary
      reads this
    {
      Summary(processed, accepted, rejected, duplicates)
    }
  }

  /** What a row of an upload meets besides its own contents. */
  datatype Weather = Weather(fault: Fault, audited: bool, now: Time)

  function Items(records: seq<ReadResult>, weather: seq<Weather>): seq<Item>
    requires |records| == |weather|
  {
    seq(|records|, k requires 0 <= k < |records| => Item(PlanFor(records[k]), weather[k].fault, weather[k].audited))
  }

  datatype BatchReply = Ingested(summary: Summary) | BatchRefused(status: nat)

  function BatchStatus(reply: BatchReply): nat {
    match reply
    case Ingested(_) => 200
    case BatchRefused(status) => status
  }

  predicate HeaderMatches(got: seq<string>, want: seq<string>) {
    |got| == |want| && forall i :: 0 <= i < |want| ==> TrimSpace(got[i]) == want[i]
  }

  /** Whether the first record is the expected header, after trimming. */
  method SameHeader(got: seq<string>, want: seq<string>) returns (same: bool)
    ensures same == HeaderMatches(got, want)
  {
    if |got| != |want| {
      return false;
    }
    for i := 0 to |want|
      invariant forall j :: 0 <= j < i ==> TrimSpace(got[j]) == want[j]
    {
      if TrimSpace(got[i]) != want[i] {
        return false;
      }
    }
    same := true;
  }

  /** The five column names, each amid spaces. */
  ghost predicate IsHeader(got: seq<string>) {
    && |got| == 5 && Padded(got[0], "ref") && Padded(got[1], "account_id") && Padded(got[2], "kind")
    && Padded(got[3], "points") && Padded(got[4], "occurred_at")
  }

  /** It neither starts nor ends with a space. */
  predicate IsWord(s: string) {
    |s| > 0 && !IsSpace(s[0]) && !IsSpace(Last(s))
  }

  lemma HeaderNames()
    ensures |HEADER| == 5 && HEADER[0] == "ref" && HEADER[1] == "account_id" && HEADER[2] == "kind"
    ensures HEADER[3] == "points" && HEADER[4] == "occurred_at"
    ensures forall k :: 0 <= k < 5 ==> IsWord(HEADER[k])
  {
  }

  lemma WordsAmidSpaces(got: seq<string>, want: seq<string>)
    requires forall k :: 0 <= k < |want| ==> IsWord(want[k])
    ensures HeaderMatches(got, want) <==> |got| == |want| && forall k :: 0 <= k < |want| ==> Padded(got[k], want[k])
  {
    if |got| == |want| {
      forall k | 0 <= k < |want| ensures TrimSpace(got[k]) == want[k] <==> Padded(got[k], want[k]) {
        TrimmedIsPadded(got[k], want[k]);
      }
    }
  }

  lemma HeaderIsRead(got: seq<string>)
    ensures HeaderMatches(got, HEADER) <==> IsHeader(got)
  {
    var want := HEADER;
    HeaderNames();
    WordsAmidSpaces(got, want);
  }

  lemma RunGrows(l: Ledger, file: seq<Item>, k: nat)
    requires k < |file|
    ensures var run := RunFile(l, file[..k]);
            var (after, e) := RowStep(run.ledger, file[k].plan, file[k].fault);
            && RunFile(l, file[..k + 1]) == Run(after, run.entries + [e])
            && Summarise(run.entries + [e]) == Bump(Summarise(run.entries), e.outcome)
            && Audited(file[..k + 1], run.entries + [e]) ==
               Audited(file[..k], run.entries) + (if file[k].audited then [e] else [])
  {
    var run := RunFile(l, file[..k]);
    assert Front(file[..k + 1]) == file[..k] && Last(file[..k + 1]) == file[k];
    FrontOfAppend(run.entries, RowStep(run.ledger, file[k].plan, file[k].fault).1);
  }

  /** The row is counted as processed before it is decided. */
  lemma ProcessedFirst(sum: Summary, o: AuditOutcome)
    ensures Bump(sum.(processed := sum.processed + 1), o).(processed := sum.processed + 1) == Bump(sum, o)
  {
  }

  class Handlers {
    const store: Store

    constructor (store: Store)
      ensures this.store == store
    {
      this.store := store;
    }

    /** AuditService.Record: an outcome outside the vocabulary is refused, nothing is written. Errors are swallowed. */
    method RecordAudit(e: AuditEntry, w: Weather)
      requires store.Valid()
      modifies store`auditLog
      ensures store.Valid() && old(store.auditLog) <= store.auditLog
      ensures EntriesOf(store.auditLog) ==
              EntriesOf(old(store.auditLog)) + if w.audited && !e.outcome.Unknown? then [e] else []
    {
      if !e.outcome.Unknown? {
        var _ := store.AppendAudit(e, w.now, w.audited);
      }
    }

    /** RecordEarn and RecordSpend: check the input, force the kind, record. */
    method Record(t: Transaction, kind: Kind, f: Fault) returns (o: Outcome)
      requires store.Valid()
      modifies store`committed, store`working
      ensures store.Valid()
      ensures (store.committed, o) ==
              if InputOk(t) then RecordWith(old(store.committed), t.(kind := kind), f)
              else (old(store.committed), Failed(InvalidInput))
    {
      if t.ref == "" || t.account == "" || t.points <= 0 {
        return Failed(InvalidInput);
      }
      o := store.RecordTransaction(t.(kind := kind), f);
    }

    /** One row: parse, record, classify, tally, audit. */
    method ProcessRow(fields: seq<string>, at: Option<Time>, w: Weather, sum: Counters)
      requires store.Valid()
      modifies store, sum
      ensures store.Valid() && old(store.auditLog) <= store.auditLog
      ensures var (after, e) := RowStep(old(store.committed), PlanFor(Fields(fields, at)), w.fault);
              && store.committed == after && RowTold(old(store.committed), Fields(fields, at), w.fault, after, e)
              && EntriesOf(store.auditLog) == EntriesOf(old(store.auditLog)) + (if w.audited then [e] else [])
              && sum.Value() == Bump(old(sum.Value()), e.outcome).(processed := old(sum.processed))
    {
      RowIsDecided(store.committed, Fields(fields, at), w.fault);
      var parsed := ParseRow(fields, at);
      if parsed.Bad? {
        sum.rejected := sum.rejected + 1;
        RecordAudit(AuditEntry(FieldOr(fields, 0), FieldOr(fields, 1), FieldOr(fields, 2), 0, Rejected, parsed.reason), w);
      } else {
        Submitted(parsed.txn, w, sum);
      }
    }

    /** The rest of ProcessRow, for a row that parsed. */
    method Submitted(t: Transaction, w: Weather, sum: Counters)
      requires store.Valid() && (t.kind == Earn || t.kind == Spend) && t.reward == ""
      modifies store, sum
      ensures store.Valid() && old(store.auditLog) <= store.auditLog
      ensures var (after, o) := if InputOk(t) then RecordWith(old(store.committed), t, w.fault)
                                else (old(store.committed), Failed(InvalidInput));
              && store.committed == after
              && EntriesOf(store.auditLog) == EntriesOf(old(store.auditLog)) + (if w.audited then [EntryFor(t, o)] else [])
              && sum.Value() == Bump(old(sum.Value()), Classify(o).0).(processed := old(sum.processed))
    {
      assert t.(kind := t.kind) == t;
      var o := Record(t, t.kind, w.fault);
      var (outcome, reason) := Classify(o);
      if outcome == Accepted {
        sum.accepted := sum.accepted + 1;
      } else if outcome == Duplicate {
        sum.duplicates := sum.duplicates + 1;
      } else {
        sum.rejected := sum.rejected + 1;
      }
      RecordAudit(AuditEntry(t.ref, t.account, KindText(t.kind), t.points, outcome, reason), w);
    }

    /** One turn of the upload's loop. */
    method IngestRecord(record: ReadResult, w: Weather, sum: Counters)
      requires store.Valid()
      modifies store, sum
      ensures store.Valid() && old(store.auditLog) <= store.auditLog
      ensures var (after, e) := RowStep(old(store.committed), PlanFor(record), w.fault);
              && store.committed == after
              && EntriesOf(store.auditLog) == EntriesOf(old(store.auditLog)) + (if w.audited then [e] else [])
              && sum.Value() == Bump(old(sum.Value()), e.outcome)
    {
      RowStepFacts(store.committed, PlanFor(record), w.fault);
      ProcessedFirst(sum.Value(), RowStep(store.committed, PlanFor(record), w.fault).1.outcome);
      sum.processed := sum.processed + 1;
      match record {
        case Malformed =>
          sum.rejected := sum.rejected + 1;
          RecordAudit(AuditEntry("", "", "", 0, Rejected, "malformed row"), w);
        case Fields(fields, at) =>
          ProcessRow(fields, at, w, sum);
      }
    }

    /** The upload's loop. */
    method IngestRecords(records: seq<ReadResult>, weather: seq<Weather>, sum: Counters)
      requires store.Valid() && |records| == |weather| && sum.Value() == Summary(0, 0, 0, 0)
      modifies store, sum
      ensures store.Valid() && old(store.auditLog) <= store.auditLog
      ensures var file := Items(records, weather);
              var run := RunFile(old(store.committed), file);
              && store.committed == run.ledger
              && sum.Value() == Summarise(run.entries)
              && EntriesOf(store.auditLog) == EntriesOf(old(store.auditLog)) + Audited(file, run.entries)
    {
      ghost var file := Items(records, weather);
      ghost var before := store.committed;
      ghost var trail := EntriesOf(store.auditLog);
      ghost var run := RunFile(before, file[..0]);
      for k := 0 to |records|
        invariant store.Valid() && old(store.auditLog) <= store.auditLog
        invariant run == RunFile(before, file[..k]) && store.committed == run.ledger
        invariant sum.Value() == Summarise(run.entries)
        invariant EntriesOf(store.auditLog) == trail + Audited(file[..k], run.entries)
      {
        RunGrows(before, file, k);
        IngestRecord(records[k], weather[k], sum);
        run := RunFile(before, file[..k + 1]);
      }
      assert file[..|records|] == file;
    }

    /** POST /batch: the ledger, the summary and the audit trail are those of the run of the file,
        and no failing audit write has any part in the first two. */
    method IngestBatch(caller: Option<Identity>, header: Option<seq<string>>, records: seq<ReadResult>, weather: seq<Weather>)
      returns (reply: BatchReply)
      requires store.Valid() && |records| == |weather|
      modifies store
      ensures store.Valid() && old(store.auditLog) <= store.auditLog
      ensures BatchTold(old(store.committed), caller, header.Some? && IsHeader(header.value), Items(records, weather),
                        store.committed, BatchStatus(reply))
      ensures !IsAdmin(caller) ==> reply == BatchRefused(403)
      ensures reply.Ingested? <==> IsAdmin(caller) && header.Some? && IsHeader(header.value)
      ensures IsAdmin(caller) && reply.BatchRefused? ==> reply.status == 400
      ensures reply.BatchRefused? ==> store.committed == old(store.committed) && store.auditLog == old(store.auditLog)
      ensures reply.Ingested? ==>
                var file := Items(records, weather);
                var run := RunFile(old(store.committed), file);
                && store.committed == run.ledger
                && reply.summary == Summarise(run.entries)
                && EntriesOf(store.auditLog) == EntriesOf(old(store.auditLog)) + Audited(file, run.entries)
    {
      if !IsAdmin(caller) {
        return BatchRefused(403);
      }
      if header.None? {
        return BatchRefused(400);
      }
      HeaderIsRead(header.value);
      var same := SameHeader(header.value, HEADER);
      if !same {
        return BatchRefused(400);
      }
      var sum := new Counters();
      IngestRecords(records, weather, sum);
      reply := Ingested(sum.Value());
    }

    /** POST /transactions. */
    method PostTransaction(caller: Option<Identity>, r: Request, f: Fault) returns (status: nat)
      requires store.Valid() && r.CreateTransaction?
      modifies store`committed, store`working
      ensures store.Valid() && (store.committed, status) == Handle(old(store.committed), caller, r, f)
      ensures PostTold(old(store.committed), caller, r, f, store.committed, status)
    {
      PostIsAnswered(store.committed, caller, r, f);
      if r.ref == "" || r.account == "" || r.points < 1 || r.at.None? {
        return 400;
      }
      if r.kind != "earn" && r.kind != "spend" {
        return 400;
      }
      if !MayTarget(caller, r.account) {
        return 403;
      }
      var o := Record(Posted(r), if r.kind == "earn" then Earn else Spend, f);
      status := StatusOf(o);
    }

    /** POST /accounts/{id}/redeem. */
    method RedeemPoints(caller: Option<Identity>, target: string, redemption: Transaction, f: Fault) returns (status: nat)
      requires store.Valid()
      modifies store`committed, store`working
      ensures store.Valid()
      ensures (store.committed, status) == Handle(old(store.committed), caller, Request.RedeemPoints(target, redemption), f)
      ensures RedeemTold(old(store.committed), caller, target, redemption, f, store.committed, status)
    {
      RedeemIsAnswered(store.committed, caller, target, redemption, f);
      if !MayTarget(caller, target) {
        return 403;
      }
      if redemption.reward == "" {
        return 400;
      }
      var o := Record(redemption.(account := target), Redeem, f);
      status := StatusOf(o);
    }

    /** POST /accounts: create, then read back so that the answer carries the stored creation time. */
    method CreateAccount(id: string, name: string, passwordHash: Option<string>, now: Time)
      returns (status: nat, account: Option<Response>)
      requires store.Valid()
      modifies store`committed
      ensures store.Valid()
      ensures id == "" || name == "" ==> status == 400 && account.None? && store.committed == old(store.committed)
      ensures id != "" && name != "" ==>
                var (after, resp) := Exec(old(store.committed), CreateOp(id, name, passwordHash, now));
                && store.committed == after
                && (if resp.Opened? then status == 201 && account == Some(resp)
                    else status == 409 && account.None? && HasAccount(old(store.committed), id))
    {
      if id == "" || name == "" {
        return 400, None;
      }
      var e := store.CreateAccount(id, name, passwordHash, now);
      if e.Some? {
        return Status(e.value), None;
      }
      var a := Lookup(store.committed.accounts, id);
      FrontOfAppend(old(store.committed).accounts, NewAccount(CreateOp(id, name, passwordHash, now)));
      if a.None? {
        return Status(NotFound), None;
      }
      return 201, Some(OpenedOf(a.value));
    }
  }
}
