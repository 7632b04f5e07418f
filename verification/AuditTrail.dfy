/** Why the audit trail can be believed, and why losing it costs no points, whatever the schedule. */
module AuditTrail {
  import opened Domain
  import opened LedgerSpec
  import opened Operations
  import opened Batch
  import opened Machine
  import opened Serializability
  import opened Safety

  // Every report is backed by a call of its own

  /** What an upload audits of a record call with this answer. */
  function EntryOf(t: Transaction, resp: Response): AuditEntry {
    EntryFor(t, if resp.Recorded? then resp.outcome else Failed(Internal))
  }

  /** How often the trail holds this entry. */
  function Reports(audit: seq<AuditEntry>, e: AuditEntry): nat {
    if |audit| == 0 then 0 else Reports(Front(audit), e) + if Last(audit) == e then 1 else 0
  }

  predicate Backs(x: LogEntry, e: AuditEntry) {
    x.op.RecordOp? && EntryOf(x.op.txn, x.resp) == e
  }

  /** How many record calls took effect with exactly this entry's ref, account, kind, points and outcome. */
  function Calls(log: seq<LogEntry>, e: AuditEntry): nat {
    if |log| == 0 then 0 else Calls(Front(log), e) + if Backs(Last(log), e) then 1 else 0
  }

  /** Whether the program is about to report the entry. */
  function Due(p: Proc, e: AuditEntry): nat {
    match p.pc
    case Auditing(entry) => if entry == e then 1 else 0
    case Replying(resp) =>
      if |p.todo| > 0 && p.todo[0].Upload? && p.todo[0].plan.Submit? && EntryOf(p.todo[0].plan.txn, resp) == e then 1 else 0
    case _ => 0
  }

  function AllDue(procs: seq<Proc>, e: AuditEntry): nat {
    if |procs| == 0 then 0 else AllDue(Front(procs), e) + Due(Last(procs), e)
  }

  ghost predicate UsableTodo(todo: seq<Task>) {
    forall k :: 0 <= k < |todo| && todo[k].Upload? ==> Usable(todo[k].plan)
  }

  ghost predicate AuditInv(s: System, e: AuditEntry) {
    && Reports(s.audit, e) + AllDue(s.procs, e) <= Calls(s.log, e)
    && forall j :: 0 <= j < |s.procs| ==> UsableTodo(s.procs[j].todo)
  }

  lemma {:induction false} DueUpdate(procs: seq<Proc>, i: nat, p: Proc, e: AuditEntry)
    requires i < |procs|
    ensures AllDue(procs[i := p], e) == AllDue(procs, e) - Due(procs[i], e) + Due(p, e)
  {
    if i < |procs| - 1 {
      DueUpdate(Front(procs), i, p, e);
      assert Front(procs[i := p]) == Front(procs)[i := p];
    } else {
      assert Front(procs[i := p]) == Front(procs);
    }
  }

  /** One event's share of the invariant: reports made and due grow by no more than the calls that back them. */
  ghost predicate Accounted(s: System, i: nat, after: System, e: AuditEntry)
    requires i < |s.procs| && |after.procs| == |s.procs|
  {
    && Reports(after.audit, e) + Due(after.procs[i], e) + Calls(s.log, e)
       <= Reports(s.audit, e) + Due(s.procs[i], e) + Calls(after.log, e)
    && UsableTodo(after.procs[i].todo)
  }

  lemma DeliveryIsAccounted(s: System, i: nat, resp: Response, e: AuditEntry)
    requires i < |s.procs| && CurrentOp(s.procs[i]).Some? && s.procs[i].pc == Replying(resp) && UsableTodo(s.procs[i].todo)
    ensures Accounted(s, i, Finish(s, i, Answered(CurrentOp(s.procs[i]).value, resp), resp), e)
  {
  }

  /** The log is as it was or has one entry more. */
  predicate LogsOne(s: System, after: System) {
    after.log == s.log || (|after.log| > 0 && Front(after.log) == s.log)
  }

  lemma MoveIsAccounted(s: System, i: nat, after: System, e: AuditEntry)
    requires i < |s.procs| && |after.procs| == |s.procs| && |s.procs[i].todo| > 0 && Moves(s, i, after) && LogsOne(s, after)
    requires UsableTodo(s.procs[i].todo) && e.outcome != Rejected
    ensures Accounted(s, i, after, e)
  {
    match s.procs[i].pc
    case Replying(resp) => DeliveryIsAccounted(s, i, resp, e);
    case Auditing(entry) => FrontOfAppend(s.audit, entry);
    case _ =>
  }

  lemma StepIsAccounted(s: System, i: nat, e: AuditEntry)
    requires LocalInv(s) && Enabled(s, Step(i)) && UsableTodo(s.procs[i].todo) && e.outcome != Rejected
    ensures Accounted(s, i, StepProc(s, i), e)
  {
    StepMoves(s, i);
    EventIsAtomic(s, Step(i));
    MoveIsAccounted(s, i, StepProc(s, i), e);
  }

  lemma FailureIsAccounted(s: System, f: Event, e: AuditEntry)
    requires LocalInv(s) && Enabled(s, f) && !f.Step? && UsableTodo(s.procs[f.proc].todo) && e.outcome != Rejected
    ensures |Apply(s, f).procs| == |s.procs| && Accounted(s, f.proc, Apply(s, f), e)
  {
  }

  lemma EventKeepsAudit(s: System, f: Event, e: AuditEntry)
    requires LocalInv(s) && AuditInv(s, e) && Enabled(s, f) && e.outcome != Rejected
    ensures AuditInv(Apply(s, f), e)
  {
    var i, after := f.proc, Apply(s, f);
    EventIsAtomic(s, f);
    if f.Step? {
      StepIsAccounted(s, i, e);
    } else {
      FailureIsAccounted(s, f, e);
    }
    DueUpdate(s.procs, i, after.procs[i], e);
    assert after.procs == s.procs[i := after.procs[i]];
  }

  lemma {:induction false} NothingDue(procs: seq<Proc>, e: AuditEntry)
    requires forall j :: 0 <= j < |procs| ==> procs[j].pc == Ready
    ensures AllDue(procs, e) == 0
  {
    if |procs| > 0 {
      NothingDue(Front(procs), e);
      assert procs[|procs| - 1].pc == Ready;
    }
  }

  lemma {:induction false} AuditInvHolds(s: System, events: seq<Event>, e: AuditEntry)
    requires Initial(s) && Legal(s, events) && s.audit == [] && e.outcome != Rejected
    requires forall j :: 0 <= j < |s.procs| ==> UsableTodo(s.procs[j].todo)
    ensures AuditInv(After(s, events), e)
  {
    if |events| > 0 {
      AuditInvHolds(s, Front(events), e);
      Serializable(s, Front(events));
      EventKeepsAudit(After(s, Front(events)), Last(events), e);
    } else {
      NothingDue(s.procs, e);
    }
  }

  /** In every schedule the audit trail tells the truth: each report of an acceptance or a replay is backed by a
      record call of its own that took effect with that very ref, account, kind, points and outcome. */
  lemma AuditTellsTheTruth(s: System, events: seq<Event>, e: AuditEntry)
    requires Initial(s) && Legal(s, events) && s.audit == [] && e.outcome != Rejected
    requires forall j :: 0 <= j < |s.procs| ==> UsableTodo(s.procs[j].todo)
    ensures Reports(After(s, events).audit, e) <= Calls(After(s, events).log, e)
  {
    AuditInvHolds(s, events, e);
  }

  // So no ref is reported as accepted twice

  lemma {:induction false} ReportedTwice(audit: seq<AuditEntry>, j: nat, k: nat)
    requires j <= k < |audit|
    ensures Reports(audit, audit[k]) >= 1
    ensures j < k && audit[j] == audit[k] ==> Reports(audit, audit[k]) >= 2
  {
    if k < |audit| - 1 {
      ReportedTwice(Front(audit), j, k);
    } else if j < k {
      ReportedTwice(Front(audit), j, j);
    }
  }

  /** The last call that backs an entry. */
  lemma {:induction false} Backed(log: seq<LogEntry>, e: AuditEntry) returns (k: nat)
    requires Calls(log, e) > 0
    ensures k < |log| && Backs(log[k], e) && Calls(log[..k], e) == Calls(log, e) - 1
  {
    if Backs(Last(log), e) {
      k := |log| - 1;
      assert log[..k] == Front(log);
    } else {
      k := Backed(Front(log), e);
      assert Front(log)[..k] == log[..k];
    }
  }

  /** Two reports name two calls. */
  lemma TwoCalls(audit: seq<AuditEntry>, log: seq<LogEntry>, j: nat, k: nat) returns (x: nat, y: nat)
    requires j < k < |audit|
    requires Reports(audit, audit[j]) <= Calls(log, audit[j]) && Reports(audit, audit[k]) <= Calls(log, audit[k])
    ensures x < |log| && y < |log| && x != y && Backs(log[x], audit[j]) && Backs(log[y], audit[k])
  {
    ReportedTwice(audit, j, j);
    ReportedTwice(audit, j, k);
    y := Backed(log, audit[k]);
    if audit[j] == audit[k] {
      x := Backed(log[..y], audit[j]);
    } else {
      x := Backed(log, audit[j]);
    }
  }

  /** Whoever uploads what, however often and in whatever schedule: the trail reports a ref as accepted at most once. */
  lemma AcceptedOncePerRef(s: System, events: seq<Event>, j: nat, k: nat)
    requires Initial(s) && Legal(s, events) && s.audit == [] && Valid(s.committed)
    requires forall i :: 0 <= i < |s.procs| ==> UsableTodo(s.procs[i].todo)
    requires j < k < |After(s, events).audit|
    requires After(s, events).audit[j].outcome == Accepted && After(s, events).audit[k].outcome == Accepted
    ensures After(s, events).audit[j].ref != After(s, events).audit[k].ref
  {
    var now := After(s, events);
    var ref := now.audit[j].ref;
    AuditTellsTheTruth(s, events, now.audit[j]);
    AuditTellsTheTruth(s, events, now.audit[k]);
    var x, y := TwoCalls(now.audit, now.log, j, k);
    assert Creates(now.log[x], ref);
    if now.audit[k].ref == ref {
      assert Creates(now.log[y], ref);
      OneCreatorPerRef(s, events, if x < y then x else y, if x < y then y else x, ref);
    }
  }

  // No row goes unreported

  /** The rows an upload still has to report. */
  function RowsLeft(todo: seq<Task>): nat
    decreases |todo|
  {
    if |todo| == 0 then 0 else RowsLeft(todo[1..]) + if todo[0].Upload? then 1 else 0
  }

  function AllRowsLeft(procs: seq<Proc>): nat {
    if |procs| == 0 then 0 else AllRowsLeft(Front(procs)) + RowsLeft(Last(procs).todo)
  }

  function FailedAudits(events: seq<Event>): nat {
    if |events| == 0 then 0 else FailedAudits(Front(events)) + FailedAudit(Last(events))
  }

  predicate AuditsARow(p: Proc) {
    p.pc.Auditing? ==> |p.todo| > 0 && p.todo[0].Upload?
  }

  lemma {:induction false} RowsLeftUpdate(procs: seq<Proc>, i: nat, p: Proc)
    requires i < |procs|
    ensures AllRowsLeft(procs[i := p]) == AllRowsLeft(procs) - RowsLeft(procs[i].todo) + RowsLeft(p.todo)
  {
    if i < |procs| - 1 {
      RowsLeftUpdate(Front(procs), i, p);
      assert Front(procs[i := p]) == Front(procs)[i := p];
    } else {
      assert Front(procs[i := p]) == Front(procs);
    }
  }

  function FailedAudit(e: Event): nat {
    if e.AuditFail? then 1 else 0
  }

  lemma EventReports(s: System, e: Event)
    requires LocalInv(s) && Enabled(s, e) && AuditsARow(s.procs[e.proc])
    ensures |Apply(s, e).procs| == |s.procs| && AuditsARow(Apply(s, e).procs[e.proc])
    ensures |Apply(s, e).audit| + FailedAudit(e) + RowsLeft(Apply(s, e).procs[e.proc].todo)
            == |s.audit| + RowsLeft(s.procs[e.proc].todo)
  {
    if e.Step? {
      StepMoves(s, e.proc);
    }
  }

  /** Entries, failed writes and rows still to come make up all the rows there were. */
  ghost predicate AllAccounted(s: System, failed: nat, total: nat) {
    && |s.audit| + failed + AllRowsLeft(s.procs) == total
    && forall j :: 0 <= j < |s.procs| ==> AuditsARow(s.procs[j])
  }

  lemma EventKeepsAccounts(s: System, e: Event, failed: nat, total: nat)
    requires LocalInv(s) && Enabled(s, e) && AllAccounted(s, failed, total)
    ensures AllAccounted(Apply(s, e), failed + FailedAudit(e), total)
  {
    var after := Apply(s, e);
    EventIsAtomic(s, e);
    EventReports(s, e);
    RowsLeftUpdate(s.procs, e.proc, after.procs[e.proc]);
    assert after.procs == s.procs[e.proc := after.procs[e.proc]];
  }

  /** Every row of every upload is reported once it is done, unless its audit write fails. */
  lemma {:induction false} EveryRowIsReported(s: System, events: seq<Event>)
    requires Initial(s) && Legal(s, events)
    ensures AllAccounted(After(s, events), FailedAudits(events), |s.audit| + AllRowsLeft(s.procs))
  {
    if |events| > 0 {
      var total := |s.audit| + AllRowsLeft(s.procs);
      EveryRowIsReported(s, Front(events));
      Serializable(s, Front(events));
      EventKeepsAccounts(After(s, Front(events)), Last(events), FailedAudits(Front(events)), total);
    }
  }

  // Losing audit writes

  /** `other` is `events` with some audit writes failing that had worked. */
  ghost predicate LosesAudits(s: System, events: seq<Event>, other: seq<Event>)
    requires Legal(s, events)
  {
    |other| == |events| &&
    (|events| == 0 ||
     (LosesAudits(s, Front(events), Front(other)) &&
      (Last(other) == Last(events) || LosesAudit(After(s, Front(events)), Last(events), Last(other)))))
  }

  predicate LosesAudit(s: System, e: Event, f: Event) {
    e.Step? && f == AuditFail(e.proc) && e.proc < |s.procs| && s.procs[e.proc].pc.Auditing?
  }

  /** Nothing a program does depends on the trail. */
  lemma TxStepIgnoresTrail(s: System, i: nat, t: Transaction, trail: seq<AuditEntry>)
    requires i < |s.procs| && InTx(s.procs[i].pc) && s.conn.Some?
    ensures TxStep(s.(audit := trail), i, t) == TxStep(s, i, t).(audit := trail)
  {
  }

  lemma StartIgnoresTrail(s: System, i: nat, op: Op, trail: seq<AuditEntry>)
    requires i < |s.procs|
    ensures StartOp(s.(audit := trail), i, op) == StartOp(s, i, op).(audit := trail)
  {
  }

  lemma StepIgnoresTrail(s: System, i: nat, trail: seq<AuditEntry>)
    requires Enabled(s, Step(i)) && !s.procs[i].pc.Auditing?
    ensures Enabled(s.(audit := trail), Step(i))
    ensures StepProc(s.(audit := trail), i) == StepProc(s, i).(audit := trail)
  {
    if CurrentOp(s.procs[i]).Some? {
      var op := CurrentOp(s.procs[i]).value;
      if InTx(s.procs[i].pc) {
        if op.RecordOp? {
          TxStepIgnoresTrail(s, i, op.txn, trail);
        }
      } else if s.procs[i].pc.Ready? {
        StartIgnoresTrail(s, i, op, trail);
      }
    }
  }

  lemma EventIgnoresTrail(s: System, e: Event, trail: seq<AuditEntry>)
    requires Enabled(s, e)
    ensures var z := s.(audit := trail);
            Enabled(z, e) && Apply(z, e) == Apply(s, e).(audit := Apply(z, e).audit)
  {
    match e
    case Step(i) =>
      if !s.procs[i].pc.Auditing? {
        StepIgnoresTrail(s, i, trail);
      }
    case _ =>
  }

  /** The audit is off the money path: in every schedule audit writes that worked may fail instead, and everything
      but the trail (ledger, answers, every caller's endings) is as it was. */
  lemma {:induction false} AuditOffMoneyPath(s: System, events: seq<Event>, other: seq<Event>)
    requires Legal(s, events) && LosesAudits(s, events, other)
    ensures Legal(s, other) && After(s, other) == After(s, events).(audit := After(s, other).audit)
  {
    if |events| > 0 {
      AuditOffMoneyPath(s, Front(events), Front(other));
      var was, now := After(s, Front(events)), After(s, Front(other));
      EventIgnoresTrail(was, Last(events), now.audit);
      assert now == was.(audit := now.audit);
    }
  }
}
