/** All requests at once: any number of programs whose SQL statements interleave on one connection.
    A record call holds the connection from BEGIN to COMMIT or ROLLBACK and works on its own copy of the ledger;
    every other statement takes the connection and gives it back. */
module Machine {
  import opened Domain
  import opened Sql
  import opened Listings
  import opened Operations
  import opened Batch

  /** What a request does, in order: one call, or the planned rows of an upload. */
  datatype Task = Call(op: Op) | Upload(plan: RowPlan)

  /** An upload, row by row. */
  function TasksOf(file: seq<Item>): seq<Task> {
    seq(|file|, k requires 0 <= k < |file| => Upload(file[k].plan))
  }

  datatype Pc =
    | Ready
    // inside a record call's transaction
    | Begun | Existing | Written(isNew: bool) | Guarded(isNew: bool) | ReadBack(isNew: bool, row: Row)
    // between the two statements of Balance or ListTransactions, and of account creation
    | Found | Opening
    // the answer is fixed but not yet delivered
    | Replying(resp: Response)
    // an upload about to audit its row
    | Auditing(entry: AuditEntry)

  /** How a task's operation ended for its caller; `Lost`: it took effect but the caller got an error. */
  datatype Ending = Answered(op: Op, resp: Response) | Lost(op: Op, resp: Response) | Aborted(op: Op)

  datatype Proc = Proc(todo: seq<Task>, pc: Pc, alive: bool, endings: seq<Ending>)

  datatype Conn = Conn(owner: nat, working: Ledger)

  datatype LogEntry = LogEntry(proc: nat, op: Op, resp: Response)

  /** `log` lists the operations in the order they took effect, with their answers. */
  datatype System = System(
    committed: Ledger,
    conn: Option<Conn>,
    procs: seq<Proc>,
    audit: seq<AuditEntry>,
    log: seq<LogEntry>)

  /** `Step`: the next statement succeeds. `Abort`: it fails, or the context is cancelled.
      `AuditFail`: the audit write fails. `Kill`: the request dies, its transaction rolled back. */
  datatype Event = Step(proc: nat) | Abort(proc: nat) | AuditFail(proc: nat) | Kill(proc: nat)

  predicate InTx(pc: Pc) {
    pc.Begun? || pc.Existing? || pc.Written? || pc.Guarded? || pc.ReadBack?
  }

  /** The store operation of the current task; an upload's unusable row has none. */
  function CurrentOp(p: Proc): Option<Op> {
    if |p.todo| == 0 then None
    else match p.todo[0]
      case Call(op) => Some(op)
      case Upload(Settled(_)) => None
      case Upload(Submit(t)) => Some(RecordOp(t))
  }

  // Updates

  function SetProc(s: System, i: nat, p: Proc): (after: System)
    requires i < |s.procs|
    ensures |after.procs| == |s.procs|
  {
    s.(procs := s.procs[i := p])
  }

  function Goto(s: System, i: nat, pc: Pc): (after: System)
    requires i < |s.procs|
    ensures |after.procs| == |s.procs|
  {
    SetProc(s, i, s.procs[i].(pc := pc))
  }

  predicate Holds(s: System, i: nat) {
    s.conn.Some? && s.conn.value.owner == i
  }

  function Release(s: System, i: nat): (after: System)
    ensures |after.procs| == |s.procs|
  {
    if Holds(s, i) then s.(conn := None) else s
  }

  /** The operation takes effect here with this answer. */
  function Answer(s: System, i: nat, op: Op, resp: Response): (after: System)
    requires i < |s.procs|
    ensures |after.procs| == |s.procs|
  {
    Goto(Release(s, i), i, Replying(resp)).(log := s.log + [LogEntry(i, op, resp)])
  }

  /** The caller moves on: an upload audits its row, a single call is over. */
  function Finished(p: Proc, ending: Ending, resp: Response): Proc
    requires |p.todo| > 0
  {
    var outcome := if resp.Recorded? then resp.outcome else Failed(Internal);
    match p.todo[0]
    case Upload(Submit(t)) => Proc(p.todo, Auditing(EntryFor(t, outcome)), p.alive, p.endings + [ending])
    case _ => Proc(p.todo[1..], Ready, p.alive, p.endings + [ending])
  }

  function Finish(s: System, i: nat, ending: Ending, resp: Response): (after: System)
    requires i < |s.procs| && |s.procs[i].todo| > 0
    ensures |after.procs| == |s.procs|
  {
    SetProc(s, i, Finished(s.procs[i], ending, resp))
  }

  function NextTask(s: System, i: nat): (after: System)
    requires i < |s.procs| && |s.procs[i].todo| > 0
    ensures |after.procs| == |s.procs|
  {
    SetProc(s, i, s.procs[i].(pc := Ready, todo := s.procs[i].todo[1..]))
  }

  // Statements

  /** Counts down with every event of a task. */
  function Rank(pc: Pc): nat {
    match pc
    case Ready => 9
    case Begun => 8
    case Existing => 7
    case Written(_) => 6
    case Guarded(_) => 5
    case ReadBack(_, _) => 4
    case Found => 4
    case Opening => 4
    case Replying(_) => 3
    case Auditing(_) => 2
  }

  predicate WantsConnection(p: Proc) {
    match p.pc
    case Ready => CurrentOp(p).Some?
    case Found => true
    case Opening => true
    case Auditing(_) => true
    case _ => false
  }

  predicate Alive(s: System, i: nat) {
    i < |s.procs| && s.procs[i].alive
  }

  predicate Unfinished(s: System, i: nat) {
    Alive(s, i) && |s.procs[i].todo| > 0
  }

  predicate Enabled(s: System, e: Event) {
    match e
    case Step(i) =>
      && Unfinished(s, i)
      && (InTx(s.procs[i].pc) ==> Holds(s, i))
      && (WantsConnection(s.procs[i]) ==> s.conn.None?)
    case Abort(i) =>
      && Unfinished(s, i) && CurrentOp(s.procs[i]).Some?
      && !s.procs[i].pc.Replying? && !s.procs[i].pc.Auditing?
    case AuditFail(i) => Unfinished(s, i) && s.procs[i].pc.Auditing?
    case Kill(i) => Alive(s, i)
  }

  function StartOp(s: System, i: nat, op: Op): (after: System)
    requires i < |s.procs|
    ensures |after.procs| == |s.procs|
  {
    match op
    case RecordOp(_) => Goto(s, i, Begun).(conn := Some(Conn(i, s.committed)))
    case BalanceOp(a) =>
      if HasAccount(s.committed, a) then Goto(s, i, Found) else Answer(s, i, op, Refused(NotFound))
    case ListOp(a) =>
      if HasAccount(s.committed, a) then Goto(s, i, Found) else Answer(s, i, op, Refused(NotFound))
    case OverviewOp =>
      Answer(s, i, op, match ListAccounts(s.committed)
                       case None => Refused(Internal)
                       case Some(list) => AccountsAre(list))
    case CreateOp(_, _, _, _) =>
      match InsertAccount(s.committed, NewAccount(op))
      case None => Answer(s, i, op, Refused(AccountExists))
      case Some(l) =>
        Goto(s, i, Opening).(committed := l, log := s.log + [LogEntry(i, op, OpenedOf(NewAccount(op)))])
  }

  /** The record call answers with an error; its transaction is rolled back. */
  function GiveUp(s: System, i: nat, t: Transaction, e: Error): (after: System)
    requires i < |s.procs|
    ensures |after.procs| == |s.procs|
  {
    Answer(s, i, RecordOp(t), Recorded(Failed(e)))
  }

  /** A statement of the record call, on the working ledger. */
  function TxStep(s: System, i: nat, t: Transaction): (after: System)
    requires i < |s.procs| && InTx(s.procs[i].pc) && s.conn.Some?
    ensures |after.procs| == |s.procs|
  {
    var w := s.conn.value.working;
    match s.procs[i].pc
    case Begun => if HasAccount(w, t.account) then Goto(s, i, Existing) else GiveUp(s, i, t, NotFound)
    case Existing =>
      (match InsertTransaction(w, t)
       case ConstraintFailed => GiveUp(s, i, t, Internal)
       case Ignored => Goto(s, i, Written(false))
       case Inserted(w2) => Goto(s, i, Written(true)).(conn := Some(Conn(i, w2))))
    case Written(isNew) =>
      if isNew && IsDeduction(t.kind) then
        match SqlSum(w.rows, t.account)
        case None => GiveUp(s, i, t, Internal)
        case Some(balance) => if balance < 0 then GiveUp(s, i, t, InsufficientBalance) else Goto(s, i, Guarded(isNew))
      else Goto(s, i, Guarded(isNew))
    case Guarded(isNew) =>
      (match FindRef(w.rows, t.ref)
       case None => GiveUp(s, i, t, Internal)
       case Some(row) => Goto(s, i, ReadBack(isNew, row)))
    case ReadBack(isNew, row) =>
      Answer(s, i, RecordOp(t), Recorded(Stored(FromRow(row), isNew))).(committed := w)
  }

  function StepProc(s: System, i: nat): (after: System)
    requires Enabled(s, Step(i))
    ensures |after.procs| == |s.procs|
  {
    var p := s.procs[i];
    match p.pc
    case Ready =>
      (match CurrentOp(p)
       case Some(op) => StartOp(s, i, op)
       case None => Goto(s, i, Auditing(p.todo[0].plan.entry)))
    case Found =>
      (match CurrentOp(p)
       case Some(BalanceOp(a)) => Answer(s, i, BalanceOp(a), BalanceAnswer(s.committed, a))
       case Some(ListOp(a)) => Answer(s, i, ListOp(a), ListAnswer(s.committed, a))
       case _ => s)
    case Opening =>
      (match CurrentOp(p)
       case Some(CreateOp(id, _, _, _)) =>
         (match Lookup(s.committed.accounts, id)
          case None => Goto(s, i, Replying(Refused(NotFound)))
          case Some(a) => Goto(s, i, Replying(OpenedOf(a))))
       case _ => s)
    case Replying(resp) =>
      (match CurrentOp(p)
       case Some(op) => Finish(s, i, Answered(op, resp), resp)
       case None => s)
    case Auditing(entry) => NextTask(s, i).(audit := s.audit + [entry])
    case _ =>
      (match CurrentOp(p)
       case Some(RecordOp(t)) => TxStep(s, i, t)
       case _ => s)
  }

  /** A failed read-back comes after the account was created; any other failure leaves nothing behind. */
  function AbortEnding(p: Proc): Ending
    requires CurrentOp(p).Some?
  {
    var op := CurrentOp(p).value;
    if p.pc.Opening? && op.CreateOp? then Lost(op, OpenedOf(NewAccount(op))) else Aborted(op)
  }

  function AbortProc(s: System, i: nat): (after: System)
    requires Enabled(s, Abort(i))
    ensures |after.procs| == |s.procs|
  {
    Finish(Release(s, i), i, AbortEnding(s.procs[i]), Refused(Internal))
  }

  function Apply(s: System, e: Event): (after: System)
    requires Enabled(s, e)
    ensures |after.procs| == |s.procs|
  {
    match e
    case Step(i) => StepProc(s, i)
    case Abort(i) => AbortProc(s, i)
    case AuditFail(i) => NextTask(s, i)
    case Kill(i) => SetProc(Release(s, i), i, s.procs[i].(alive := false))
  }

  /** Program i goes on inside its transaction, or leaves it with an answer; nothing else but the ledgers changes. */
  predicate TxMoves(s: System, i: nat, t: Transaction, after: System)
    requires i < |s.procs| && |after.procs| == |s.procs|
  {
    var pc := after.procs[i].pc;
    && after.procs == s.procs[i := s.procs[i].(pc := pc)] && after.audit == s.audit && Rank(pc) < Rank(s.procs[i].pc)
    && (if InTx(pc) then after.log == s.log
        else pc.Replying? && after.log == s.log + [LogEntry(i, RecordOp(t), pc.resp)])
  }

  lemma AnswerMoves(s: System, i: nat, t: Transaction, resp: Response, l: Ledger)
    requires i < |s.procs| && InTx(s.procs[i].pc)
    ensures TxMoves(s, i, t, Answer(s, i, RecordOp(t), resp).(committed := l))
  {
  }

  lemma GotoMoves(s: System, i: nat, t: Transaction, pc: Pc, conn: Option<Conn>)
    requires i < |s.procs| && InTx(pc) && Rank(pc) < Rank(s.procs[i].pc)
    ensures TxMoves(s, i, t, Goto(s, i, pc).(conn := conn))
  {
  }

  lemma InsertMoves(s: System, i: nat, t: Transaction)
    requires i < |s.procs| && (s.procs[i].pc.Begun? || s.procs[i].pc.Existing?) && s.conn.Some?
    ensures TxMoves(s, i, t, TxStep(s, i, t))
  {
    var after := TxStep(s, i, t);
    var pc := after.procs[i].pc;
    AnswerMoves(s, i, t, Recorded(Failed(NotFound)), s.committed);
    AnswerMoves(s, i, t, Recorded(Failed(Internal)), s.committed);
    if InTx(pc) {
      GotoMoves(s, i, t, pc, after.conn);
    }
  }

  lemma GuardMoves(s: System, i: nat, t: Transaction)
    requires i < |s.procs| && s.procs[i].pc.Written? && s.conn.Some?
    ensures TxMoves(s, i, t, TxStep(s, i, t))
  {
    AnswerMoves(s, i, t, Recorded(Failed(Internal)), s.committed);
    AnswerMoves(s, i, t, Recorded(Failed(InsufficientBalance)), s.committed);
    GotoMoves(s, i, t, Guarded(s.procs[i].pc.isNew), s.conn);
  }

  lemma ReadBackMoves(s: System, i: nat, t: Transaction)
    requires i < |s.procs| && (s.procs[i].pc.Guarded? || s.procs[i].pc.ReadBack?) && s.conn.Some?
    ensures TxMoves(s, i, t, TxStep(s, i, t))
  {
    var after := TxStep(s, i, t);
    var pc := after.procs[i].pc;
    if pc.Replying? {
      AnswerMoves(s, i, t, pc.resp, after.committed);
    } else {
      GotoMoves(s, i, t, pc, s.conn);
    }
  }

  lemma TxStepMoves(s: System, i: nat, t: Transaction)
    requires i < |s.procs| && InTx(s.procs[i].pc) && s.conn.Some?
    ensures TxMoves(s, i, t, TxStep(s, i, t))
  {
    match s.procs[i].pc
    case Begun => InsertMoves(s, i, t);
    case Existing => InsertMoves(s, i, t);
    case Written(_) => GuardMoves(s, i, t);
    case Guarded(_) => ReadBackMoves(s, i, t);
    case ReadBack(_, _) => ReadBackMoves(s, i, t);
  }

  // Runs

  predicate Legal(s: System, events: seq<Event>)
    decreases |events|, 0
  {
    |events| == 0 || (Legal(s, Front(events)) && Enabled(After(s, Front(events)), Last(events)))
  }

  function After(s: System, events: seq<Event>): System
    requires Legal(s, events)
    decreases |events|, 1
  {
    if |events| == 0 then s else Apply(After(s, Front(events)), Last(events))
  }

  /** Every program is at its start, nobody holds the connection and nothing has happened yet. */
  predicate Initial(s: System) {
    && s.conn.None? && s.log == []
    && forall i :: 0 <= i < |s.procs| ==>
         s.procs[i].pc == Ready && s.procs[i].alive && s.procs[i].endings == []
  }
}
