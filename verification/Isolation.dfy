/** Isolation of accounts on every schedule: what requests of strangers, interleaved in any way, cannot reach. */
module Isolation {
  import opened Domain
  import opened Sql
  import opened LedgerSpec
  import opened Operations
  import opened Batch
  import opened BatchLaws
  import opened Access
  import opened Machine
  import opened Serializability
  import opened Races

  // What a request asks of the store

  /** The operations are carried out one after another. */
  function RunOps(l: Ledger, ops: seq<Op>): Ledger
    decreases |ops|
  {
    if |ops| == 0 then l else RunOps(Exec(l, ops[0]).0, ops[1..])
  }

  /** The calls that a handler makes for a request, once it has let the caller pass. */
  function TasksFor(caller: Option<Identity>, r: Request): seq<Task> {
    match r
    case CreateTransaction(_, _, _, _, _) =>
      if !WellFormed(r) || !MayTarget(caller, r.account) then []
      else [Task.Call(RecordOp(Posted(r).(kind := if r.kind == "earn" then Earn else Spend)))]
    case RedeemPoints(target, redemption) =>
      var t := redemption.(account := target, kind := Redeem);
      if !MayTarget(caller, target) || !InputOk(t) || t.reward == "" then [] else [Task.Call(RecordOp(t))]
    case IngestBatch(header, file) =>
      if !IsAdmin(caller) || !header then [] else TasksOf(file)
  }

  lemma {:induction false} OpsOfBoth(a: seq<Task>, b: seq<Task>)
    ensures OpsOf(a + b) == OpsOf(a) + OpsOf(b)
  {
    if |a| > 0 {
      OpsOfBoth(a[1..], b);
      assert (a + b)[1..] == a[1..] + b;
    } else {
      assert a + b == b;
    }
  }

  lemma {:induction false} RunOpsBoth(l: Ledger, a: seq<Op>, b: seq<Op>)
    ensures RunOps(l, a + b) == RunOps(RunOps(l, a), b)
    decreases |a|
  {
    if |a| > 0 {
      RunOpsBoth(Exec(l, a[0]).0, a[1..], b);
      assert (a + b)[1..] == a[1..] + b;
    } else {
      assert a + b == b;
    }
  }

  lemma OneTask(l: Ledger, plan: Plan)
    ensures RunOps(l, OpsOf([Upload(plan)])) == RowStep(l, plan, NoFault).0
  {
    assert [Upload(plan)][1..] == [];
    match plan
    case Settled(_) =>
    case Submit(t) =>
      FaultIsAllOrNothing(l, t, NoFault);
      assert [RecordOp(t)] + OpsOf([]) == [RecordOp(t)];
      assert [RecordOp(t)][1..] == [];
  }

  lemma {:induction false} UploadIsItsRows(l: Ledger, file: seq<Item>)
    requires Calm(file)
    ensures RunOps(l, OpsOf(TasksOf(file))) == RunFile(l, file).ledger
  {
    if |file| > 0 {
      var last := Last(file);
      assert last.fault == NoFault && Calm(Front(file)) by {
        assert last == file[|file| - 1];
      }
      UploadIsItsRows(l, Front(file));
      assert TasksOf(file) == TasksOf(Front(file)) + [Upload(last.plan)];
      OpsOfBoth(TasksOf(Front(file)), [Upload(last.plan)]);
      RunOpsBoth(l, OpsOf(TasksOf(Front(file))), OpsOf([Upload(last.plan)]));
      OneTask(RunFile(l, Front(file)).ledger, last.plan);
    }
  }

  lemma OneCall(l: Ledger, t: Transaction)
    ensures RunOps(l, OpsOf([Task.Call(RecordOp(t))])) == RecordWith(l, t, NoFault).0
  {
    FaultIsAllOrNothing(l, t, NoFault);
    assert [Task.Call(RecordOp(t))][1..] == [];
    assert [RecordOp(t)] + OpsOf([]) == [RecordOp(t)];
    assert [RecordOp(t)][1..] == [];
  }

  /** Alone and without faults, the calls made for a request do to the ledger what its handler does. */
  lemma TasksAreTheRequest(l: Ledger, caller: Option<Identity>, r: Request)
    requires r.IngestBatch? ==> Calm(r.file)
    ensures RunOps(l, OpsOf(TasksFor(caller, r))) == Handle(l, caller, r, NoFault).0
  {
    match r
    case CreateTransaction(_, _, _, _, _) =>
      if WellFormed(r) {
        OneCall(l, Posted(r).(kind := if r.kind == "earn" then Earn else Spend));
      }
    case RedeemPoints(target, redemption) =>
      OneCall(l, redemption.(account := target, kind := Redeem));
    case IngestBatch(_, file) =>
      UploadIsItsRows(l, file);
  }

  // Every schedule

  predicate Records(op: Op, account: string) {
    op.RecordOp? && op.txn.account == account
  }

  ghost predicate NoneRecords(ops: seq<Op>, account: string) {
    forall op :: op in ops ==> !Records(op, account)
  }

  lemma {:induction false} ReplayLeaves(l: Ledger, log: seq<LogEntry>, account: string)
    requires forall k :: 0 <= k < |log| ==> !Records(log[k].op, account)
    ensures Untouched(l, Replay(l, log), account)
  {
    if |log| > 0 {
      var before, op := Replay(l, Front(log)), Last(log).op;
      assert !Records(op, account) by {
        assert Last(log) == log[|log| - 1];
      }
      assert forall k :: 0 <= k < |Front(log)| ==> Front(log)[k] == log[k];
      ReplayLeaves(l, Front(log), account);
      if op.RecordOp? {
        FaultIsAllOrNothing(before, op.txn, NoFault);
        RecordTouchesOne(before, op.txn, NoFault, account);
      }
    }
  }

  /** In every schedule, with failures and deaths, an account that no program records on keeps its rows,
      its balance and its listing. */
  lemma SchedulesAreIsolated(s: System, events: seq<Event>, account: string)
    requires Initial(s) && Legal(s, events)
    requires forall i :: 0 <= i < |s.procs| ==> NoneRecords(OpsOf(s.procs[i].todo), account)
    ensures Untouched(s.committed, After(s, events).committed, account)
  {
    var now := After(s, events);
    Serializable(s, events);
    forall k | 0 <= k < |now.log| ensures !Records(now.log[k].op, account) {
      LogWithinPrograms(s.committed, Programs(s), now, k);
    }
    ReplayLeaves(s.committed, now.log, account);
  }

  lemma StrangersRecordElsewhere(caller: Option<Identity>, r: Request, account: string)
    requires Stranger(caller, account)
    ensures NoneRecords(OpsOf(TasksFor(caller, r)), account)
  {
    var tasks := TasksFor(caller, r);
    if |tasks| > 0 {
      assert tasks == [tasks[0]] && tasks[0].Call? && !Records(tasks[0].op, account);
      assert tasks[1..] == [];
      assert OpsOf(tasks) == [tasks[0].op] + OpsOf([]);
    }
  }

  /** Requests of strangers, all at once and interleaved in any way, leave the account as it was. */
  lemma StrangersAreIsolated(
      s: System, events: seq<Event>, callers: seq<Option<Identity>>, requests: seq<Request>, account: string)
    requires Initial(s) && Legal(s, events) && |s.procs| == |callers| == |requests|
    requires forall i :: 0 <= i < |s.procs| ==>
               Stranger(callers[i], account) && s.procs[i].todo == TasksFor(callers[i], requests[i])
    ensures Untouched(s.committed, After(s, events).committed, account)
  {
    forall i | 0 <= i < |s.procs| ensures NoneRecords(OpsOf(s.procs[i].todo), account) {
      StrangersRecordElsewhere(callers[i], requests[i], account);
    }
    SchedulesAreIsolated(s, events, account);
  }
}
