/** Any number of uploads of the same file at the same time, beside any number of readers. */
module ConcurrentUploads {
  import opened Domain
  import opened Sql
  import opened LedgerSpec
  import opened Operations
  import opened Batch
  import opened BatchLaws
  import opened Machine
  import opened Serializability

  predicate IsRead(task: Task) {
    task.Call? && (task.op.BalanceOp? || task.op.ListOp? || task.op.OverviewOp?)
  }

  ghost predicate OnlyReads(todo: seq<Task>) {
    forall k :: 0 <= k < |todo| ==> IsRead(todo[k])
  }

  /** The requests in `who` upload the file; all others only read. */
  ghost predicate UploadsAndReads(s: System, who: set<nat>, file: seq<Item>) {
    && (forall i :: i in who ==> i < |s.procs| && s.procs[i].todo == TasksOf(file))
    && forall i :: 0 <= i < |s.procs| && i !in who ==> OnlyReads(s.procs[i].todo)
  }

  /** The rows an upload has decided. */
  function Progress(p: Proc, n: nat): int {
    n - |p.todo| + if p.pc.Replying? || p.pc.Auditing? then 1 else 0
  }

  /** Some upload is past the row that upload i is at. */
  ghost predicate Behind(s: System, who: set<nat>, n: nat, i: nat) {
    i < |s.procs| && exists j :: j in who && j < |s.procs| && Progress(s.procs[j], n) > Progress(s.procs[i], n)
  }

  /** Statements fail only on readers and on uploads at a row that another upload has decided; any request may
      die and any audit write fail. */
  ghost predicate HarmlessFailures(s: System, events: seq<Event>, who: set<nat>, n: nat)
    requires Legal(s, events)
  {
    |events| == 0 ||
    (HarmlessFailures(s, Front(events), who, n) && Harmless(After(s, Front(events)), Last(events), who, n))
  }

  ghost predicate Harmless(s: System, e: Event, who: set<nat>, n: nat) {
    e.Abort? && e.proc in who ==> Behind(s, who, n, e.proc)
  }

  /** A single run of the file refuses no row at the balance guard. */
  ghost predicate NeverShort(l: Ledger, file: seq<Item>) {
    forall i :: 0 <= i < |file| ==>
      RunFile(l, file).entries[i].outcome != Rejected || FinalRefusal(l, file[i].plan)
  }

  ghost predicate OnFile(p: Proc, file: seq<Item>) {
    |p.todo| <= |file| && p.todo == TasksOf(file)[|file| - |p.todo|..]
  }

  ghost predicate IsFurthest(procs: seq<Proc>, who: set<nat>, n: nat, m: nat) {
    && (forall i :: i in who ==> i < |procs| && Progress(procs[i], n) <= m)
    && (m == 0 || exists i :: i in who && i < |procs| && Progress(procs[i], n) == m)
  }

  ghost predicate Together(l: Ledger, file: seq<Item>, who: set<nat>, s: System, m: nat) {
    && LocalInv(s) && m <= |file|
    && (forall i :: i in who && i < |s.procs| ==> OnFile(s.procs[i], file))
    && (forall i :: 0 <= i < |s.procs| && i !in who ==> OnlyReads(s.procs[i].todo))
    && IsFurthest(s.procs, who, |file|, m)
    && s.committed == RunFile(l, file[..m]).ledger
  }

  lemma OnFileAt(p: Proc, file: seq<Item>)
    requires OnFile(p, file) && |p.todo| > 0
    ensures p.todo[0] == Upload(file[|file| - |p.todo|].plan)
    ensures p.todo[1..] == TasksOf(file)[|file| - |p.todo| + 1..]
  {
  }

  /** Upload i has moved by one row if the row was decided in between, and not otherwise. */
  ghost predicate Progresses(s: System, i: nat, after: System, file: seq<Item>)
    requires i < |s.procs| && |after.procs| == |s.procs|
  {
    var k, moved := Progress(s.procs[i], |file|), Progress(after.procs[i], |file|);
    && OnFile(after.procs[i], file)
    && (if |after.log| > |s.log| then
          && 0 <= k < |file| && moved == k + 1 && file[k].plan.Submit?
          && CurrentOp(s.procs[i]) == Some(RecordOp(file[k].plan.txn))
        else moved == k || (moved == k + 1 && 0 <= k < |file| && file[k].plan.Settled?))
  }

  lemma StepProgresses(s: System, i: nat, after: System, file: seq<Item>)
    requires i < |s.procs| && |after.procs| == |s.procs| && |s.procs[i].todo| > 0 && Moves(s, i, after)
    requires OnFile(s.procs[i], file)
    ensures Progresses(s, i, after, file)
  {
    var p, q := s.procs[i], after.procs[i];
    OnFileAt(p, file);
    match p.pc
    case Replying(_) => assert q.todo == p.todo && q.pc.Auditing?;
    case Auditing(_) => assert q.todo == p.todo[1..];
    case _ =>
      assert q.todo == p.todo;
      if CurrentOp(p).Some? {
        assert |after.log| > |s.log| <==> q.pc.Replying?;
      }
  }

  lemma EventProgresses(s: System, e: Event, file: seq<Item>)
    requires LocalInv(s) && Enabled(s, e) && !e.Abort? && OnFile(s.procs[e.proc], file)
    ensures Progresses(s, e.proc, Apply(s, e), file)
  {
    match e
    case Step(i) =>
      StepMoves(s, i);
      StepProgresses(s, i, StepProc(s, i), file);
    case AuditFail(i) =>
      OnFileAt(s.procs[i], file);
    case _ =>
  }

  /** Deciding a row again changes nothing. */
  lemma RowDecidedAgain(l: Ledger, file: seq<Item>, k: nat, m: nat)
    requires Valid(l) && Calm(file) && NeverShort(l, file) && k < m <= |file|
    ensures var now := RunFile(l, file[..m]).ledger; RowStep(now, file[k].plan, NoFault).0 == now
  {
    var met, now := RunFile(l, file[..k]).ledger, RunFile(l, file[..m]).ledger;
    RunFacts(l, file[..m]);
    assert file[..m][..k] == file[..k] && file[..m][k] == file[k];
    RunAt(l, file[..m], k);
    RunAt(l, file, k);
    if RunFile(l, file).entries[k].outcome != Rejected {
      StaysDuplicate(met, now, file[k].plan);
      RowStepFacts(now, file[k].plan, NoFault);
    }
  }

  /** Deciding row k again, or for the first time, on the ledger that the first m rows leave. */
  lemma RowAgain(l: Ledger, file: seq<Item>, k: nat, m: nat)
    requires Valid(l) && Calm(file) && NeverShort(l, file) && k <= m <= |file| && k < |file|
    ensures RowStep(RunFile(l, file[..m]).ledger, file[k].plan, NoFault).0
            == RunFile(l, file[..if k < m then m else m + 1]).ledger
  {
    if k < m {
      RowDecidedAgain(l, file, k, m);
    } else {
      assert Front(file[..m + 1]) == file[..m];
    }
  }

  lemma FurthestAfter(before: seq<Proc>, after: seq<Proc>, who: set<nat>, i: nat, n: nat, m: nat)
    requires IsFurthest(before, who, n, m) && |after| == |before| && i in who
    requires forall j :: 0 <= j < |before| && j != i ==> after[j] == before[j]
    requires Progress(before[i], n) <= Progress(after[i], n) <= Progress(before[i], n) + 1
    ensures IsFurthest(after, who, n, if Progress(after[i], n) > m then m + 1 else m)
  {
    if Progress(after[i], n) <= m && m > 0 {
      var j :| j in who && j < |before| && Progress(before[j], n) == m;
      assert Progress(after[j], n) == m;
    }
  }

  lemma FurthestStays(before: seq<Proc>, after: seq<Proc>, who: set<nat>, i: nat, n: nat, m: nat)
    requires IsFurthest(before, who, n, m) && |after| == |before| && i !in who
    requires forall j :: 0 <= j < |before| && j != i ==> after[j] == before[j]
    ensures IsFurthest(after, who, n, m)
  {
    if m > 0 {
      var j :| j in who && j < |before| && Progress(before[j], n) == m;
      assert Progress(after[j], n) == m;
    }
  }

  lemma ReadKeepsTogether(l: Ledger, file: seq<Item>, who: set<nat>, s: System, e: Event, m: nat)
    requires Together(l, file, who, s, m) && Enabled(s, e) && e.proc !in who
    ensures Together(l, file, who, Apply(s, e), m)
  {
    var after, i := Apply(s, e), e.proc;
    EventKeepsLocal(s, e);
    EventIsAtomic(s, e);
    FurthestStays(s.procs, after.procs, who, i, |file|, m);
    ReaderStays(s, e);
  }

  lemma ReaderStays(s: System, e: Event)
    requires LocalInv(s) && Enabled(s, e) && OnlyReads(s.procs[e.proc].todo)
    ensures Apply(s, e).committed == s.committed && OnlyReads(Apply(s, e).procs[e.proc].todo)
  {
    EventIsAtomic(s, e);
    if e.Step? {
      StepMoves(s, e.proc);
    }
  }

  /** Upload i has moved on to the row that `after` shows it at, and the ledger is that of the furthest upload. */
  ghost predicate MovesOn(l: Ledger, file: seq<Item>, s: System, i: nat, after: System, m: nat)
    requires i < |s.procs| && |after.procs| == |s.procs| && m <= |file|
  {
    var k, moved := Progress(s.procs[i], |file|), Progress(after.procs[i], |file|);
    && OnFile(after.procs[i], file) && k <= moved <= k + 1 && (moved > m ==> m < |file|)
    && after.committed == RunFile(l, file[..if moved > m then m + 1 else m]).ledger
  }

  lemma RowMovesOn(l: Ledger, file: seq<Item>, s: System, i: nat, after: System, m: nat)
    requires Valid(l) && Calm(file) && NeverShort(l, file) && m <= |file|
    requires i < |s.procs| && |after.procs| == |s.procs| && Atomic(s, i, after) && Progresses(s, i, after, file)
    requires Progress(s.procs[i], |file|) <= m && s.committed == RunFile(l, file[..m]).ledger
    ensures MovesOn(l, file, s, i, after, m)
  {
    var k, moved := Progress(s.procs[i], |file|), Progress(after.procs[i], |file|);
    if moved == k + 1 {
      RowAgain(l, file, k, m);
      if TakesEffect(s, i, after) {
        FaultIsAllOrNothing(s.committed, file[k].plan.txn, NoFault);
      }
    }
  }

  /** A failed statement gives the row up: the upload moves on, the ledger stays. */
  lemma AbortMovesOn(l: Ledger, file: seq<Item>, s: System, i: nat, m: nat)
    requires LocalInv(s) && Enabled(s, Abort(i)) && OnFile(s.procs[i], file) && m <= |file|
    requires Progress(s.procs[i], |file|) < m && s.committed == RunFile(l, file[..m]).ledger
    ensures MovesOn(l, file, s, i, AbortProc(s, i), m)
  {
    OnFileAt(s.procs[i], file);
  }

  lemma StillTogether(l: Ledger, file: seq<Item>, who: set<nat>, s: System, i: nat, after: System, m: nat) returns (n: nat)
    requires Together(l, file, who, s, m) && LocalInv(after) && i in who
    requires |after.procs| == |s.procs| && forall j :: 0 <= j < |s.procs| && j != i ==> after.procs[j] == s.procs[j]
    requires MovesOn(l, file, s, i, after, m)
    ensures Together(l, file, who, after, n)
  {
    n := if Progress(after.procs[i], |file|) > m then m + 1 else m;
    FurthestAfter(s.procs, after.procs, who, i, |file|, m);
  }

  lemma UploadKeepsTogether(l: Ledger, file: seq<Item>, who: set<nat>, s: System, e: Event, m: nat)
    returns (n: nat)
    requires Valid(l) && Calm(file) && NeverShort(l, file)
    requires Together(l, file, who, s, m) && Enabled(s, e) && e.proc in who && Harmless(s, e, who, |file|)
    ensures Together(l, file, who, Apply(s, e), n)
  {
    var after, i := Apply(s, e), e.proc;
    EventKeepsLocal(s, e);
    EventIsAtomic(s, e);
    if e.Abort? {
      AbortMovesOn(l, file, s, i, m);
    } else {
      EventProgresses(s, e, file);
      RowMovesOn(l, file, s, i, after, m);
    }
    n := StillTogether(l, file, who, s, i, after, m);
  }

  lemma TogetherAtStart(s: System, file: seq<Item>, who: set<nat>)
    requires Initial(s) && UploadsAndReads(s, who, file)
    ensures Together(s.committed, file, who, s, 0)
  {
    assert file[..0] == [];
    assert TasksOf(file)[0..] == TasksOf(file);
    forall i | i in who ensures OnFile(s.procs[i], file) && Progress(s.procs[i], |file|) == 0 {
      assert s.procs[i].pc == Ready;
    }
  }

  /** If a single run of the file refuses no row at the balance guard, then at every moment of every schedule of
      uploads and readers the committed ledger is that of one run over the first m rows, m being the furthest
      upload's progress. */
  lemma {:induction false} UploadsActAsOne(s: System, events: seq<Event>, file: seq<Item>, who: set<nat>)
    returns (m: nat)
    requires Initial(s) && Legal(s, events) && UploadsAndReads(s, who, file)
    requires HarmlessFailures(s, events, who, |file|)
    requires Valid(s.committed) && Calm(file) && NeverShort(s.committed, file)
    ensures Together(s.committed, file, who, After(s, events), m)
  {
    if |events| == 0 {
      m := 0;
      TogetherAtStart(s, file, who);
    } else {
      m := UploadsActAsOne(s, Front(events), file, who);
      var now := After(s, Front(events));
      if Last(events).proc in who {
        m := UploadKeepsTogether(s.committed, file, who, now, Last(events), m);
      } else {
        ReadKeepsTogether(s.committed, file, who, now, Last(events), m);
      }
    }
  }

  /** As soon as one upload is through, the ledger is that of a single upload, and stays so. */
  lemma UploadsEndAsOne(s: System, events: seq<Event>, file: seq<Item>, who: set<nat>, i: nat)
    requires Initial(s) && Legal(s, events) && UploadsAndReads(s, who, file)
    requires HarmlessFailures(s, events, who, |file|)
    requires Valid(s.committed) && Calm(file) && NeverShort(s.committed, file)
    requires i in who && i < |After(s, events).procs| && After(s, events).procs[i].todo == []
    ensures After(s, events).committed == RunFile(s.committed, file).ledger
  {
    var m := UploadsActAsOne(s, events, file, who);
    var now := After(s, events);
    assert Progress(now.procs[i], |file|) >= |file| && now.committed == RunFile(s.committed, file[..m]).ledger;
    assert m == |file|;
    assert file[..|file|] == file;
  }
}
