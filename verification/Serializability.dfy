/** Every schedule is equivalent to running its operations one after another,
    in the order in which they released the connection. */
module Serializability {
  import opened Domain
  import opened Sql
  import opened LedgerSpec
  import opened Operations
  import opened Machine

  // The serial run

  function Replay(l: Ledger, log: seq<LogEntry>): Ledger {
    if |log| == 0 then l else Exec(Replay(l, Front(log)), Last(log).op).0
  }

  /** Each answer is the one the serial run gives. */
  predicate Faithful(l: Ledger, log: seq<LogEntry>) {
    |log| == 0 || (Faithful(l, Front(log)) && Exec(Replay(l, Front(log)), Last(log).op).1 == Last(log).resp)
  }

  /** One program's part of the log. */
  function Mine(log: seq<LogEntry>, i: nat): seq<(Op, Response)> {
    if |log| == 0 then []
    else Mine(Front(log), i) + if Last(log).proc == i then [(Last(log).op, Last(log).resp)] else []
  }

  /** The operations that took effect, as their caller's endings tell them. */
  function Effects(endings: seq<Ending>): seq<(Op, Response)> {
    if |endings| == 0 then []
    else Effects(Front(endings)) +
         match Last(endings)
         case Answered(op, resp) => [(op, resp)]
         case Lost(op, resp) => [(op, resp)]
         case Aborted(_) => []
  }

  /** An operation that took effect and whose caller has not been told. */
  function Pending(p: Proc): seq<(Op, Response)> {
    match CurrentOp(p)
    case None => []
    case Some(op) =>
      if p.pc.Replying? then [(op, p.pc.resp)]
      else if p.pc.Opening? && op.CreateOp? then [(op, OpenedOf(NewAccount(op)))]
      else []
  }

  function TraceOf(p: Proc): seq<(Op, Response)> {
    Effects(p.endings) + Pending(p)
  }

  // The invariant

  predicate Wrote(c: Ledger, w: Ledger, t: Transaction, isNew: bool) {
    && HasAccount(c, t.account)
    && InsertTransaction(c, t) == (if isNew then Inserted(w) else Ignored)
    && (!isNew ==> w == c)
  }

  predicate Passed(w: Ledger, t: Transaction, isNew: bool) {
    isNew && IsDeduction(t.kind) ==> SqlSum(w.rows, t.account).Some? && SqlSum(w.rows, t.account).value >= 0
  }

  /** What an open transaction knows: `c` is committed, `w` is its working ledger. */
  predicate TxOk(c: Ledger, w: Ledger, t: Transaction, pc: Pc)
    requires InTx(pc)
  {
    match pc
    case Begun => w == c
    case Existing => w == c && HasAccount(c, t.account)
    case Written(isNew) => Wrote(c, w, t, isNew)
    case Guarded(isNew) => Wrote(c, w, t, isNew) && Passed(w, t, isNew)
    case ReadBack(isNew, row) =>
      Wrote(c, w, t, isNew) && Passed(w, t, isNew) && FindRef(w.rows, t.ref) == Some(row)
  }

  predicate ProcOk(c: Ledger, p: Proc) {
    && (p.pc.Auditing? ==> |p.todo| > 0)
    && (p.pc.Replying? ==> CurrentOp(p).Some?)
    && (InTx(p.pc) ==> CurrentOp(p).Some? && CurrentOp(p).value.RecordOp?)
    && (p.pc.Found? ==> CurrentOp(p).Some? && (CurrentOp(p).value.BalanceOp? || CurrentOp(p).value.ListOp?)
                        && HasAccount(c, CurrentOp(p).value.account))
    && (p.pc.Opening? ==> CurrentOp(p).Some? && CurrentOp(p).value.CreateOp?
                          && Lookup(c.accounts, CurrentOp(p).value.id) == Some(NewAccount(CurrentOp(p).value)))
  }

  /** The connection belongs to exactly the program inside a transaction. */
  ghost predicate ConnOk(s: System) {
    && (s.conn.Some? ==>
          var i := s.conn.value.owner;
          && Alive(s, i) && InTx(s.procs[i].pc) && ProcOk(s.committed, s.procs[i])
          && TxOk(s.committed, s.conn.value.working, CurrentOp(s.procs[i]).value.txn, s.procs[i].pc))
    && forall i: nat :: Alive(s, i) && InTx(s.procs[i].pc) ==> Holds(s, i)
  }

  ghost predicate LocalInv(s: System) {
    ConnOk(s) && forall i :: 0 <= i < |s.procs| ==> ProcOk(s.committed, s.procs[i])
  }

  /** One event of program i: nothing takes effect, or exactly its current operation does, atomically. */
  ghost predicate Atomic(s: System, i: nat, after: System)
    requires i < |s.procs| && |after.procs| == |s.procs|
  {
    && (forall j :: 0 <= j < |s.procs| && j != i ==> after.procs[j] == s.procs[j])
    && (Quiet(s, i, after) || TakesEffect(s, i, after))
  }

  ghost predicate Quiet(s: System, i: nat, after: System)
    requires i < |s.procs| && |after.procs| == |s.procs|
  {
    after.committed == s.committed && after.log == s.log && TraceOf(after.procs[i]) == TraceOf(s.procs[i])
  }

  ghost predicate TakesEffect(s: System, i: nat, after: System)
    requires i < |s.procs| && |after.procs| == |s.procs|
  {
    CurrentOp(s.procs[i]).Some? &&
    var op := CurrentOp(s.procs[i]).value;
    var (l, resp) := Exec(s.committed, op);
    && after.committed == l
    && after.log == s.log + [LogEntry(i, op, resp)]
    && TraceOf(after.procs[i]) == TraceOf(s.procs[i]) + [(op, resp)]
  }

  // One event

  lemma EffectsOfAppend(endings: seq<Ending>, e: Ending)
    ensures Effects(endings + [e]) == Effects(endings) +
            match e case Answered(op, r) => [(op, r)] case Lost(op, r) => [(op, r)] case Aborted(_) => []
  {
    FrontOfAppend(endings, e);
  }

  lemma AnswerIsAtomic(s: System, i: nat, op: Op)
    requires i < |s.procs| && CurrentOp(s.procs[i]) == Some(op) && Pending(s.procs[i]) == []
    ensures var (l, resp) := Exec(s.committed, op); Atomic(s, i, Answer(s, i, op, resp).(committed := l))
  {
    var (l, resp) := Exec(s.committed, op);
    var after := Answer(s, i, op, resp).(committed := l);
    var p, q := s.procs[i], after.procs[i];
    assert q.endings == p.endings && Pending(q) == [(op, resp)];
    assert TraceOf(q) == TraceOf(p) + [(op, resp)];
    assert TakesEffect(s, i, after);
  }

  lemma GotoIsAtomic(s: System, i: nat, pc: Pc, conn: Option<Conn>)
    requires i < |s.procs| && Pending(s.procs[i]) == [] && !pc.Replying? && !pc.Opening?
    ensures Atomic(s, i, Goto(s, i, pc).(conn := conn))
  {
    var after := Goto(s, i, pc).(conn := conn);
    assert TraceOf(after.procs[i]) == TraceOf(s.procs[i]);
    assert Quiet(s, i, after);
  }

  lemma FinishTrace(p: Proc, ending: Ending, resp: Response)
    requires |p.todo| > 0
    ensures var q := Finished(p, ending, resp);
            TraceOf(q) == Effects(p.endings) +
            match ending case Answered(op, r) => [(op, r)] case Lost(op, r) => [(op, r)] case Aborted(_) => []
  {
    EffectsOfAppend(p.endings, ending);
    assert Pending(Finished(p, ending, resp)) == [];
  }

  /** The transaction's last step commits what Record, run at that instant, would. */
  lemma CommitIsRecord(c: Ledger, w: Ledger, t: Transaction, isNew: bool, row: Row)
    requires TxOk(c, w, t, ReadBack(isNew, row))
    ensures Record(c, t) == (w, Stored(FromRow(row), isNew))
  {
    if isNew {
      FrontOfAppend(c.rows, ToRow(t, NextId(c.rows)));
    }
  }

  /** A transaction that gives up says what Record, run at that instant, would. */
  lemma GivingUpIsRecord(c: Ledger, w: Ledger, t: Transaction, pc: Pc, e: Error)
    requires InTx(pc) && TxOk(c, w, t, pc)
    requires match pc
             case Begun => !HasAccount(w, t.account) && e == NotFound
             case Existing => InsertTransaction(w, t).ConstraintFailed? && e == Internal
             case Written(isNew) =>
               && !Passed(w, t, isNew)
               && e == (if SqlSum(w.rows, t.account).None? then Internal else InsufficientBalance)
             case _ => false
    ensures Record(c, t) == (c, Failed(e))
  {
  }

  lemma StoredRowIsFound(c: Ledger, w: Ledger, t: Transaction, isNew: bool)
    requires Wrote(c, w, t, isNew)
    ensures FindRef(w.rows, t.ref).Some?
  {
    if isNew {
      FrontOfAppend(c.rows, ToRow(t, NextId(c.rows)));
    }
  }

  lemma TxStepIsAtomic(s: System, i: nat)
    requires LocalInv(s) && Enabled(s, Step(i)) && InTx(s.procs[i].pc)
    ensures Atomic(s, i, StepProc(s, i))
  {
    var t, w, c := CurrentOp(s.procs[i]).value.txn, s.conn.value.working, s.committed;
    AnswerIsAtomic(s, i, RecordOp(t));
    match s.procs[i].pc
    case Begun =>
      if HasAccount(w, t.account) {
        GotoIsAtomic(s, i, Existing, s.conn);
      } else {
        GivingUpIsRecord(c, w, t, Begun, NotFound);
      }
    case Existing =>
      match InsertTransaction(w, t) {
        case ConstraintFailed => GivingUpIsRecord(c, w, t, Existing, Internal);
        case Ignored => GotoIsAtomic(s, i, Written(false), s.conn);
        case Inserted(after) => GotoIsAtomic(s, i, Written(true), Some(Conn(i, after)));
      }
    case Written(isNew) =>
      if Passed(w, t, isNew) {
        GotoIsAtomic(s, i, Guarded(isNew), s.conn);
      } else {
        GivingUpIsRecord(c, w, t, Written(isNew), if SqlSum(w.rows, t.account).None? then Internal else InsufficientBalance);
      }
    case Guarded(isNew) =>
      StoredRowIsFound(c, w, t, isNew);
      GotoIsAtomic(s, i, ReadBack(isNew, FindRef(w.rows, t.ref).value), s.conn);
    case ReadBack(isNew, row) =>
      CommitIsRecord(c, w, t, isNew, row);
  }

  lemma StartIsAtomic(s: System, i: nat, op: Op)
    requires LocalInv(s) && Enabled(s, Step(i)) && s.procs[i].pc.Ready? && CurrentOp(s.procs[i]) == Some(op)
    ensures Atomic(s, i, StartOp(s, i, op))
  {
    AnswerIsAtomic(s, i, op);
    assert !Holds(s, i);
  }

  lemma FoundIsAtomic(s: System, i: nat)
    requires LocalInv(s) && Enabled(s, Step(i)) && s.procs[i].pc.Found?
    ensures Atomic(s, i, StepProc(s, i))
  {
    AnswerIsAtomic(s, i, CurrentOp(s.procs[i]).value);
  }

  lemma ReplyIsAtomic(s: System, i: nat)
    requires LocalInv(s) && Enabled(s, Step(i)) && s.procs[i].pc.Replying?
    ensures Atomic(s, i, StepProc(s, i))
  {
    var p := s.procs[i];
    FinishTrace(p, Answered(CurrentOp(p).value, p.pc.resp), p.pc.resp);
  }

  lemma StepIsAtomic(s: System, i: nat)
    requires LocalInv(s) && Enabled(s, Step(i))
    ensures Atomic(s, i, StepProc(s, i))
  {
    match s.procs[i].pc
    case Ready =>
      if CurrentOp(s.procs[i]).Some? {
        StartIsAtomic(s, i, CurrentOp(s.procs[i]).value);
      }
    case Found => FoundIsAtomic(s, i);
    case Opening =>
    case Replying(_) => ReplyIsAtomic(s, i);
    case Auditing(_) =>
    case _ => TxStepIsAtomic(s, i);
  }

  lemma AbortTrace(p: Proc)
    requires CurrentOp(p).Some? && !p.pc.Replying?
    ensures TraceOf(Finished(p, AbortEnding(p), Refused(Internal))) == TraceOf(p)
  {
    FinishTrace(p, AbortEnding(p), Refused(Internal));
  }

  lemma AbortIsAtomic(s: System, i: nat)
    requires LocalInv(s) && Enabled(s, Abort(i))
    ensures Atomic(s, i, AbortProc(s, i))
  {
    var after := AbortProc(s, i);
    AbortTrace(s.procs[i]);
    assert Release(s, i).procs == s.procs && after.procs == s.procs[i := after.procs[i]];
    assert after.committed == s.committed && after.log == s.log;
    assert Quiet(s, i, after);
  }

  lemma AuditFailIsAtomic(s: System, i: nat)
    requires LocalInv(s) && Enabled(s, AuditFail(i))
    ensures Atomic(s, i, NextTask(s, i))
  {
    assert Quiet(s, i, NextTask(s, i));
  }

  lemma KillIsAtomic(s: System, i: nat)
    requires Enabled(s, Kill(i))
    ensures Atomic(s, i, Apply(s, Kill(i)))
  {
    var after := SetProc(Release(s, i), i, s.procs[i].(alive := false));
    assert TraceOf(after.procs[i]) == TraceOf(s.procs[i]);
    assert Quiet(s, i, after);
  }

  lemma EventIsAtomic(s: System, e: Event)
    requires LocalInv(s) && Enabled(s, e)
    ensures |Apply(s, e).procs| == |s.procs| && Atomic(s, e.proc, Apply(s, e))
  {
    match e
    case Step(i) => StepIsAtomic(s, i);
    case Abort(i) => AbortIsAtomic(s, i);
    case AuditFail(i) => AuditFailIsAtomic(s, i);
    case Kill(i) => KillIsAtomic(s, i);
  }

  // The local invariant is kept

  lemma ProcOkLater(c: Ledger, op: Op, p: Proc)
    requires ProcOk(c, p)
    ensures ProcOk(Exec(c, op).0, p)
  {
    ExecExtends(c, op);
  }

  /** Programs other than the one that moves keep what they know: accounts stay, and never change. */
  lemma OthersOk(s: System, i: nat, after: System, j: nat)
    requires LocalInv(s) && i < |s.procs| && |after.procs| == |s.procs| && Atomic(s, i, after)
    requires j < |s.procs| && j != i
    ensures ProcOk(after.committed, after.procs[j])
  {
    if TakesEffect(s, i, after) {
      ProcOkLater(s.committed, CurrentOp(s.procs[i]).value, s.procs[j]);
    }
  }

  lemma CreateKeepsOwn(s: System, i: nat, op: Op)
    requires LocalInv(s) && Enabled(s, Step(i)) && s.procs[i].pc.Ready? && CurrentOp(s.procs[i]) == Some(op) && op.CreateOp?
    ensures ProcOk(StartOp(s, i, op).committed, StartOp(s, i, op).procs[i]) && ConnOk(StartOp(s, i, op))
  {
    FrontOfAppend(s.committed.accounts, NewAccount(op));
  }

  lemma StartKeepsOwn(s: System, i: nat, op: Op)
    requires LocalInv(s) && Enabled(s, Step(i)) && s.procs[i].pc.Ready? && CurrentOp(s.procs[i]) == Some(op)
    ensures ProcOk(StartOp(s, i, op).committed, StartOp(s, i, op).procs[i]) && ConnOk(StartOp(s, i, op))
  {
    if op.CreateOp? {
      CreateKeepsOwn(s, i, op);
    }
  }

  lemma TxGoesOn(s: System, i: nat, w: Ledger, pc: Pc)
    requires ConnOk(s) && Holds(s, i) && InTx(pc)
    requires TxOk(s.committed, w, CurrentOp(s.procs[i]).value.txn, pc)
    ensures var after := Goto(s, i, pc).(conn := Some(Conn(i, w)));
            ConnOk(after) && ProcOk(s.committed, after.procs[i])
  {
  }

  /** A transaction that answers gives the connection back, and nobody else was inside one. */
  lemma TxEnds(s: System, i: nat, l: Ledger, resp: Response)
    requires ConnOk(s) && Holds(s, i)
    ensures var after := Answer(s, i, CurrentOp(s.procs[i]).value, resp).(committed := l);
            ConnOk(after) && ProcOk(l, after.procs[i])
  {
  }

  lemma TxKeepsOwn(s: System, i: nat, t: Transaction)
    requires ConnOk(s) && Holds(s, i) && CurrentOp(s.procs[i]) == Some(RecordOp(t))
    ensures var after := TxStep(s, i, t); ProcOk(after.committed, after.procs[i]) && ConnOk(after)
  {
    var w, c := s.conn.value.working, s.committed;
    match s.procs[i].pc
    case Begun =>
      if HasAccount(w, t.account) {
        TxGoesOn(s, i, w, Existing);
      } else {
        TxEnds(s, i, c, Recorded(Failed(NotFound)));
      }
    case Existing =>
      match InsertTransaction(w, t) {
        case ConstraintFailed => TxEnds(s, i, c, Recorded(Failed(Internal)));
        case Ignored => TxGoesOn(s, i, w, Written(false));
        case Inserted(after) => TxGoesOn(s, i, after, Written(true));
      }
    case Written(isNew) =>
      if Passed(w, t, isNew) {
        TxGoesOn(s, i, w, Guarded(isNew));
      } else {
        TxEnds(s, i, c, Recorded(Failed(if SqlSum(w.rows, t.account).None? then Internal else InsufficientBalance)));
      }
    case Guarded(isNew) =>
      StoredRowIsFound(c, w, t, isNew);
      TxGoesOn(s, i, w, ReadBack(isNew, FindRef(w.rows, t.ref).value));
    case ReadBack(isNew, row) =>
      TxEnds(s, i, w, Recorded(Stored(FromRow(row), isNew)));
  }

  lemma TxStepKeepsOwn(s: System, i: nat)
    requires LocalInv(s) && Enabled(s, Step(i)) && InTx(s.procs[i].pc)
    ensures ProcOk(StepProc(s, i).committed, StepProc(s, i).procs[i]) && ConnOk(StepProc(s, i))
  {
    TxKeepsOwn(s, i, CurrentOp(s.procs[i]).value.txn);
  }

  /** A program outside a transaction, or dead, leaves the connection to whoever else holds it. */
  lemma ConnKept(s: System, i: nat, after: System)
    requires ConnOk(s) && i < |s.procs| && |after.procs| == |s.procs|
    requires forall j :: 0 <= j < |s.procs| && j != i ==> after.procs[j] == s.procs[j]
    requires after.committed == s.committed && after.conn == Release(s, i).conn
    requires !InTx(after.procs[i].pc) || !after.procs[i].alive
    ensures ConnOk(after)
  {
    assert forall j: nat :: j < |s.procs| && j != i && Alive(after, j) ==> Alive(s, j);
  }

  lemma RestKeepsOwn(s: System, i: nat)
    requires LocalInv(s) && Enabled(s, Step(i)) && !InTx(s.procs[i].pc)
    requires s.procs[i].pc.Ready? ==> CurrentOp(s.procs[i]).None?
    ensures ProcOk(StepProc(s, i).committed, StepProc(s, i).procs[i]) && ConnOk(StepProc(s, i))
  {
    ConnKept(s, i, StepProc(s, i));
  }

  lemma FailureKeepsOwn(s: System, e: Event)
    requires LocalInv(s) && Enabled(s, e) && !e.Step?
    ensures |Apply(s, e).procs| == |s.procs|
    ensures ProcOk(Apply(s, e).committed, Apply(s, e).procs[e.proc]) && ConnOk(Apply(s, e))
  {
    ConnKept(s, e.proc, Apply(s, e));
  }

  lemma EventKeepsLocal(s: System, e: Event)
    requires LocalInv(s) && Enabled(s, e)
    ensures LocalInv(Apply(s, e))
  {
    var i, after := e.proc, Apply(s, e);
    EventIsAtomic(s, e);
    if e.Step? {
      if InTx(s.procs[i].pc) {
        TxStepKeepsOwn(s, i);
      } else if s.procs[i].pc.Ready? && CurrentOp(s.procs[i]).Some? {
        StartKeepsOwn(s, i, CurrentOp(s.procs[i]).value);
      } else {
        RestKeepsOwn(s, i);
      }
    } else {
      FailureKeepsOwn(s, e);
    }
    forall j | 0 <= j < |after.procs| && j != i ensures ProcOk(after.committed, after.procs[j]) {
      OthersOk(s, i, after, j);
    }
  }

  // What one step of a program does to it

  /** A step delivers an answer, audits a row, turns to an unusable row, or takes its operation one statement on. */
  predicate Moves(s: System, i: nat, after: System)
    requires i < |s.procs| && |after.procs| == |s.procs| && |s.procs[i].todo| > 0
  {
    var p, q := s.procs[i], after.procs[i];
    && after.procs == s.procs[i := q]
    && match p.pc
       case Replying(resp) =>
         && CurrentOp(p).Some? && q == Finished(p, Answered(CurrentOp(p).value, resp), resp)
         && after.log == s.log && after.audit == s.audit
       case Auditing(entry) =>
         q == p.(pc := Ready, todo := p.todo[1..]) && after.log == s.log && after.audit == s.audit + [entry]
       case _ =>
         && after.audit == s.audit
         && match CurrentOp(p)
            case None =>
              && p.todo[0].Upload? && p.todo[0].plan.Settled?
              && q == p.(pc := Auditing(p.todo[0].plan.entry)) && after.log == s.log
            case Some(op) => GoesOn(p, q) && LogsAtMost(s, i, op, after)
  }

  predicate GoesOn(p: Proc, q: Proc) {
    q == p.(pc := q.pc) && Rank(q.pc) < Rank(p.pc) && !q.pc.Auditing?
  }

  /** The log is as it was, or the operation was added to it; only a creation does not answer then. */
  predicate LogsAtMost(s: System, i: nat, op: Op, after: System)
    requires i < |after.procs|
  {
    var pc := after.procs[i].pc;
    if op.CreateOp? then true
    else if pc.Replying? then after.log == s.log + [LogEntry(i, op, pc.resp)] else after.log == s.log
  }

  lemma StartMoves(s: System, i: nat, op: Op)
    requires i < |s.procs| && s.procs[i].pc.Ready?
    ensures var after := StartOp(s, i, op);
            && after.procs == s.procs[i := after.procs[i]] && after.audit == s.audit
            && GoesOn(s.procs[i], after.procs[i]) && LogsAtMost(s, i, op, after)
  {
  }

  lemma InTxMoves(s: System, i: nat)
    requires LocalInv(s) && Enabled(s, Step(i)) && InTx(s.procs[i].pc)
    ensures Moves(s, i, StepProc(s, i))
  {
    TxStepMoves(s, i, CurrentOp(s.procs[i]).value.txn);
  }

  lemma StepMoves(s: System, i: nat)
    requires LocalInv(s) && Enabled(s, Step(i))
    ensures Moves(s, i, StepProc(s, i))
  {
    if InTx(s.procs[i].pc) {
      InTxMoves(s, i);
    } else if s.procs[i].pc.Ready? && CurrentOp(s.procs[i]).Some? {
      StartMoves(s, i, CurrentOp(s.procs[i]).value);
    }
  }

  // Program order

  function OpsOf(todo: seq<Task>): seq<Op> {
    if |todo| == 0 then []
    else match todo[0]
      case Call(op) => [op] + OpsOf(todo[1..])
      case Upload(Submit(t)) => [RecordOp(t)] + OpsOf(todo[1..])
      case Upload(Settled(_)) => OpsOf(todo[1..])
  }

  function EndedOps(endings: seq<Ending>): seq<Op> {
    seq(|endings|, k requires 0 <= k < |endings| => endings[k].op)
  }

  /** The operations a program has not ended yet. */
  function RemainingOps(p: Proc): seq<Op> {
    if p.pc.Auditing? && |p.todo| > 0 then OpsOf(p.todo[1..]) else OpsOf(p.todo)
  }

  function ProgramOf(p: Proc): seq<Op> {
    EndedOps(p.endings) + RemainingOps(p)
  }

  lemma FinishKeepsProgram(p: Proc, ending: Ending, resp: Response)
    requires CurrentOp(p) == Some(ending.op) && !p.pc.Auditing?
    ensures ProgramOf(Finished(p, ending, resp)) == ProgramOf(p)
  {
    assert EndedOps(p.endings + [ending]) == EndedOps(p.endings) + [ending.op];
    assert RemainingOps(p) == [ending.op] + OpsOf(p.todo[1..]);
  }


  lemma StepKeepsProgram(s: System, i: nat)
    requires LocalInv(s) && Enabled(s, Step(i))
    ensures ProgramOf(StepProc(s, i).procs[i]) == ProgramOf(s.procs[i])
  {
    var p := s.procs[i];
    StepMoves(s, i);
    if p.pc.Replying? {
      FinishKeepsProgram(p, Answered(CurrentOp(p).value, p.pc.resp), p.pc.resp);
    }
  }

  lemma EventKeepsProgram(s: System, e: Event)
    requires LocalInv(s) && Enabled(s, e)
    ensures ProgramOf(Apply(s, e).procs[e.proc]) == ProgramOf(s.procs[e.proc])
  {
    match e
    case Step(i) => StepKeepsProgram(s, i);
    case Abort(i) => FinishKeepsProgram(s.procs[i], AbortEnding(s.procs[i]), Refused(Internal));
    case AuditFail(_) =>
    case Kill(_) =>
  }

  // Every schedule

  /** The committed ledger and all answers are those of the serial run of the log, the log holds exactly what
      each caller's endings tell, and each caller's endings follow its program `program[i]`. */
  ghost predicate Serial(l: Ledger, program: seq<seq<Op>>, s: System) {
    && Replay(l, s.log) == s.committed
    && Faithful(l, s.log)
    && |program| == |s.procs|
    && (forall k :: 0 <= k < |s.log| ==> s.log[k].proc < |s.procs|)
    && (forall i :: 0 <= i < |s.procs| ==> Mine(s.log, i) == TraceOf(s.procs[i]))
    && (forall i :: 0 <= i < |s.procs| ==> ProgramOf(s.procs[i]) == program[i])
  }

  function Programs(s: System): seq<seq<Op>> {
    seq(|s.procs|, i requires 0 <= i < |s.procs| => OpsOf(s.procs[i].todo))
  }

  lemma OneMoreEntry(l: Ledger, log: seq<LogEntry>, x: LogEntry)
    ensures Replay(l, log + [x]) == Exec(Replay(l, log), x.op).0
    ensures Faithful(l, log + [x]) <==> Faithful(l, log) && Exec(Replay(l, log), x.op).1 == x.resp
    ensures forall j :: Mine(log + [x], j) == Mine(log, j) + if x.proc == j then [(x.op, x.resp)] else []
  {
    FrontOfAppend(log, x);
  }

  lemma SerialStays(l: Ledger, program: seq<seq<Op>>, s: System, i: nat, after: System)
    requires Serial(l, program, s) && i < |s.procs| && |after.procs| == |s.procs|
    requires Atomic(s, i, after) && Quiet(s, i, after)
    requires ProgramOf(after.procs[i]) == ProgramOf(s.procs[i])
    ensures Serial(l, program, after)
  {
    assert after.log == s.log && after.committed == s.committed;
  }

  lemma SerialGrows(l: Ledger, program: seq<seq<Op>>, s: System, after: System, x: LogEntry)
    requires Serial(l, program, s) && x.proc < |s.procs| == |after.procs|
    requires forall j :: 0 <= j < |s.procs| && j != x.proc ==> after.procs[j] == s.procs[j]
    requires ProgramOf(after.procs[x.proc]) == ProgramOf(s.procs[x.proc])
    requires TraceOf(after.procs[x.proc]) == TraceOf(s.procs[x.proc]) + [(x.op, x.resp)]
    requires after.log == s.log + [x] && (after.committed, x.resp) == Exec(s.committed, x.op)
    ensures Serial(l, program, after)
  {
    OneMoreEntry(l, s.log, x);
    forall j | 0 <= j < |s.procs|
      ensures Mine(after.log, j) == TraceOf(after.procs[j]) && ProgramOf(after.procs[j]) == program[j]
    {
      assert Mine(s.log, j) == TraceOf(s.procs[j]) && ProgramOf(s.procs[j]) == program[j];
    }
  }

  /** One atomic event of program i extends the serial run by its operation, if it takes effect at all. */
  lemma SerialGoesOn(l: Ledger, program: seq<seq<Op>>, s: System, i: nat, after: System)
    requires Serial(l, program, s) && i < |s.procs| && |after.procs| == |s.procs| && Atomic(s, i, after)
    requires ProgramOf(after.procs[i]) == ProgramOf(s.procs[i])
    ensures Serial(l, program, after)
  {
    if Quiet(s, i, after) {
      SerialStays(l, program, s, i, after);
    } else {
      SerialGrows(l, program, s, after, Last(after.log));
    }
  }

  lemma EventKeepsSerial(l: Ledger, program: seq<seq<Op>>, s: System, e: Event)
    requires LocalInv(s) && Enabled(s, e) && Serial(l, program, s)
    ensures Serial(l, program, Apply(s, e))
  {
    EventIsAtomic(s, e);
    EventKeepsProgram(s, e);
    SerialGoesOn(l, program, s, e.proc, Apply(s, e));
  }

  lemma SerialAtStart(s: System)
    requires Initial(s)
    ensures LocalInv(s) && Serial(s.committed, Programs(s), s)
  {
    forall i | 0 <= i < |s.procs|
      ensures TraceOf(s.procs[i]) == [] && ProgramOf(s.procs[i]) == Programs(s)[i]
    {
      assert s.procs[i].pc == Ready && s.procs[i].endings == [];
      assert EndedOps(s.procs[i].endings) == [];
    }
  }

  /** Serializability over all schedules, of any number of programs, with failures and deaths at any step. */
  lemma {:induction false} Serializable(s: System, events: seq<Event>)
    requires Initial(s) && Legal(s, events)
    ensures LocalInv(After(s, events)) && Serial(s.committed, Programs(s), After(s, events))
  {
    if |events| == 0 {
      SerialAtStart(s);
    } else {
      Serializable(s, Front(events));
      EventKeepsLocal(After(s, Front(events)), Last(events));
      EventKeepsSerial(s.committed, Programs(s), After(s, Front(events)), Last(events));
    }
  }
}
