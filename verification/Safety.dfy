/** What no schedule can break: solvency, idempotency, progress. */
module Safety {
  import opened Domain
  import opened Sql
  import opened LedgerSpec
  import opened Listings
  import opened Operations
  import opened Answers
  import opened Machine
  import opened Serializability

  // Solvency

  lemma {:induction false} ReplayKeepsValid(l: Ledger, log: seq<LogEntry>)
    requires Valid(l)
    ensures Valid(Replay(l, log))
  {
    if |log| > 0 {
      ReplayKeepsValid(l, Front(log));
      ExecKeepsValid(Replay(l, Front(log)), Last(log).op);
    }
  }

  /** In every reachable state the committed ledger satisfies every constraint, and every account is at zero
      or above after every prefix of the ledger: the overdraft inside an open transaction never escapes. */
  lemma NoOverdraft(s: System, events: seq<Event>)
    requires Initial(s) && Legal(s, events) && Valid(s.committed)
    ensures var c := After(s, events).committed;
            Valid(c) && forall k: nat, a: string :: k <= |c.rows| ==> Net(c.rows[..k], a) >= 0
  {
    Serializable(s, events);
    ReplayKeepsValid(s.committed, After(s, events).log);
    SolventIffEveryPrefix(After(s, events).committed.rows);
  }

  /** The answer shows no balance below zero. */
  ghost predicate ShowsNoDebt(resp: Response) {
    && (resp.BalanceIs? ==> resp.balance >= 0)
    && (resp.AccountsAre? ==> forall i :: 0 <= i < |resp.accounts| ==> resp.accounts[i].balance >= 0)
    && (resp.EntriesAre? ==> forall j :: 0 <= j <= |resp.entries| ==> TallyEntries(resp.entries[j..]) >= 0)
  }

  lemma OverviewShowsNoDebt(l: Ledger)
    requires Valid(l) && ListAccounts(l).Some?
    ensures forall i :: 0 <= i < |ListAccounts(l).value| ==> ListAccounts(l).value[i].balance >= 0
  {
    OverviewConserves(l);
    forall i | 0 <= i < |ListAccounts(l).value| ensures ListAccounts(l).value[i].balance >= 0 {
      SqlSumIsNet(l.rows, SortById(l.accounts)[i].id);
      SolventNow(l.rows, SortById(l.accounts)[i].id);
    }
  }

  lemma ListingShowsNoDebt(l: Ledger, account: string)
    requires Valid(l)
    ensures ShowsNoDebt(ListAnswer(l, account))
  {
    var listing := ListByAccount(l.rows, account);
    ListingTellsBalance(l.rows, account);
    forall j | 0 <= j <= |listing| ensures TallyEntries(Entries(listing)[j..]) >= 0 {
      assert Entries(listing)[j..] == Entries(listing[j..]);
      EntriesTally(listing[j..]);
    }
  }

  lemma ExecShowsNoDebt(l: Ledger, op: Op)
    requires Valid(l)
    ensures ShowsNoDebt(Exec(l, op).1)
  {
    match op
    case BalanceOp(a) =>
      SqlSumIsNet(l.rows, a);
      SolventNow(l.rows, a);
    case ListOp(a) =>
      ListingShowsNoDebt(l, a);
    case OverviewOp =>
      if ListAccounts(l).Some? {
        OverviewShowsNoDebt(l);
      }
    case _ =>
  }

  lemma {:induction false} LogShowsNoDebt(l: Ledger, log: seq<LogEntry>)
    requires Valid(l) && Faithful(l, log)
    ensures forall k :: 0 <= k < |log| ==> ShowsNoDebt(log[k].resp)
  {
    if |log| > 0 {
      LogShowsNoDebt(l, Front(log));
      ReplayKeepsValid(l, Front(log));
      ExecShowsNoDebt(Replay(l, Front(log)), Last(log).op);
      assert forall k :: 0 <= k < |log| - 1 ==> log[k] == Front(log)[k];
    }
  }

  /** No reader, in any schedule, is ever shown the transient overdraft of another request. */
  lemma ReadersSeeNoDebt(s: System, events: seq<Event>)
    requires Initial(s) && Legal(s, events) && Valid(s.committed)
    ensures var log := After(s, events).log; forall k :: 0 <= k < |log| ==> ShowsNoDebt(log[k].resp)
  {
    Serializable(s, events);
    LogShowsNoDebt(s.committed, After(s, events).log);
  }

  /** What a read was told of the ledger at its instant. */
  ghost predicate ReadTold(l: Ledger, op: Op, resp: Response) {
    match op
    case BalanceOp(a) => BalanceTold(l, a, resp)
    case ListOp(a) => ListingTold(l, a, resp)
    case OverviewOp => OverviewTold(l, resp)
    case _ => true
  }

  lemma ExecTells(l: Ledger, op: Op)
    requires Valid(l)
    ensures ReadTold(l, op, Exec(l, op).1)
  {
    match op
    case BalanceOp(a) => BalanceTells(l, a);
    case ListOp(a) => ListingTells(l, a);
    case OverviewOp => OverviewTells(l);
    case _ =>
  }

  /** In every schedule each read tells the balances, entries and accounts of the ledger that the operations
      before it have left. */
  lemma ReadersAreTold(s: System, events: seq<Event>, k: nat)
    requires Initial(s) && Legal(s, events) && Valid(s.committed) && k < |After(s, events).log|
    ensures var log := After(s, events).log; ReadTold(Replay(s.committed, log[..k]), log[k].op, log[k].resp)
  {
    var log := After(s, events).log;
    Serializable(s, events);
    ReplayKeepsValid(s.committed, log[..k]);
    FaithfulAt(s.committed, log, k);
    ExecTells(Replay(s.committed, log[..k]), log[k].op);
  }

  const SPEND: Transaction := Transaction("r1", "ann", Spend, 5, "", Time(0, 0))

  /** One request to spend from an empty account, at step `pc`. */
  function Spending(pc: Pc, conn: Option<Conn>): System {
    System(OPENED, conn, [Proc([Call(RecordOp(SPEND))], pc, true, [])], [], [])
  }

  const INDEBTED: Ledger := OPENED.(rows := OPENED.rows + [ToRow(SPEND, 1)])

  lemma SpendingSteps()
    ensures Apply(Spending(Ready, None), Step(0)) == Spending(Begun, Some(Conn(0, OPENED)))
    ensures Apply(Spending(Begun, Some(Conn(0, OPENED))), Step(0)) == Spending(Existing, Some(Conn(0, OPENED)))
    ensures Apply(Spending(Existing, Some(Conn(0, OPENED))), Step(0)) == Spending(Written(true), Some(Conn(0, INDEBTED)))
  {
    assert HasAccount(OPENED, "ann");
    assert InsertTransaction(OPENED, SPEND) == Inserted(INDEBTED);
  }

  lemma OneMore(s: System, events: seq<Event>, e: Event)
    requires Legal(s, events) && Enabled(After(s, events), e)
    ensures Legal(s, events + [e]) && After(s, events + [e]) == Apply(After(s, events), e)
  {
    FrontOfAppend(events, e);
  }

  /** The overdraft is real while it lasts: after three steps of one spend its working ledger is below zero. */
  lemma WorkingLedgerCanBeInDebt(s: System, events: seq<Event>)
    requires s == Spending(Ready, None) && events == [] + [Step(0)] + [Step(0)] + [Step(0)]
    ensures Initial(s) && Valid(s.committed) && Legal(s, events)
    ensures var now := After(s, events); now.conn.Some? && Net(now.conn.value.working.rows, "ann") == -5
  {
    SpendingSteps();
    OneMore(s, [], Step(0));
    OneMore(s, [] + [Step(0)], Step(0));
    OneMore(s, [] + [Step(0)] + [Step(0)], Step(0));
    FrontOfAppend(OPENED.rows, ToRow(SPEND, 1));
    assert Net(INDEBTED.rows, "ann") == Net(OPENED.rows, "ann") - 5;
  }

  // Idempotency

  /** Once a ref is committed, every later service-level record call with it that names an existing account
      leaves the ledger alone and answers with the first writer's row. */
  lemma FirstWriteWins(l: Ledger, later: Ledger, t: Transaction)
    requires Extends(l, later) && Valid(later)
    requires FindRef(l.rows, t.ref).Some? && ChecksPass(t.kind, t.points) && HasAccount(later, t.account)
    ensures Record(later, t) == (later, Stored(FromRow(FindRef(l.rows, t.ref).value), false))
  {
    FindRefLater(l, later, t.ref);
  }

  lemma {:induction false} ReplayExtends(l: Ledger, log: seq<LogEntry>, k: nat)
    requires k <= |log|
    ensures Extends(Replay(l, log[..k]), Replay(l, log))
  {
    if k < |log| {
      assert Front(log)[..k] == log[..k];
      ReplayExtends(l, Front(log), k);
      ExecExtends(Replay(l, Front(log)), Last(log).op);
    } else {
      assert log[..k] == log;
    }
  }

  lemma {:induction false} FaithfulAt(l: Ledger, log: seq<LogEntry>, k: nat)
    requires Faithful(l, log) && k < |log|
    ensures log[k].resp == Exec(Replay(l, log[..k]), log[k].op).1
    ensures Replay(l, log[..k + 1]) == Exec(Replay(l, log[..k]), log[k].op).0
  {
    if k < |log| - 1 {
      FaithfulAt(l, Front(log), k);
      assert Front(log)[..k] == log[..k] && Front(log)[..k + 1] == log[..k + 1];
    } else {
      assert log[..k] == Front(log) && log[..k + 1] == log;
    }
  }

  predicate Creates(e: LogEntry, ref: string) {
    e.op.RecordOp? && e.op.txn.ref == ref && e.resp.Recorded? && e.resp.outcome.Stored? && e.resp.outcome.created
  }

  /** In every schedule, after a request has created a ref, each record call with that ref is told the very
      transaction the creator was told, as a replay, unless it names an unknown account (or fails the
      table's CHECKs): in particular at most one request per ref is told it created it. */
  lemma OneCreatorPerRef(s: System, events: seq<Event>, j: nat, k: nat, ref: string)
    requires Initial(s) && Legal(s, events) && Valid(s.committed)
    requires j < k < |After(s, events).log|
    requires Creates(After(s, events).log[j], ref)
    requires After(s, events).log[k].op.RecordOp? && After(s, events).log[k].op.txn.ref == ref
    ensures var log := After(s, events).log;
            && !Creates(log[k], ref)
            && (log[k].resp == Recorded(Stored(log[j].resp.outcome.txn, false))
                || log[k].resp == Recorded(Failed(NotFound))
                || !ChecksPass(log[k].op.txn.kind, log[k].op.txn.points))
  {
    var l, log := s.committed, After(s, events).log;
    Serializable(s, events);
    FaithfulAt(l, log, j);
    FaithfulAt(l, log, k);
    var early, late := Replay(l, log[..j + 1]), Replay(l, log[..k]);
    ReplayKeepsValid(l, log[..j]);
    ReplayKeepsValid(l, log[..k]);
    assert log[..k][..j + 1] == log[..j + 1];
    ReplayExtends(l, log[..k], j + 1);
    RecordOutcomes(Replay(l, log[..j]), log[j].op.txn);
    RecordOutcomes(late, log[k].op.txn);
    var row := Last(early.rows);
    FindRefLater(early, late, ref);
  }

  /** Once committed, rows and accounts stay as they are through everything that follows. */
  lemma {:induction false} CommittedForEver(s: System, events: seq<Event>, more: seq<Event>)
    requires Initial(s) && Legal(s, events + more)
    ensures Legal(s, events) && Extends(After(s, events).committed, After(s, events + more).committed)
  {
    if |more| == 0 {
      assert events + more == events;
    } else {
      var shorter := events + Front(more);
      assert Front(events + more) == shorter && Last(events + more) == Last(more);
      CommittedForEver(s, events, Front(more));
      Serializable(s, shorter);
      var now := After(s, shorter);
      EventIsAtomic(now, Last(more));
      if TakesEffect(now, Last(more).proc, Apply(now, Last(more))) {
        ExecExtends(now.committed, CurrentOp(now.procs[Last(more).proc]).value);
      }
    }
  }

  // Progress

  /** An upper bound on the events a program can still take part in. */
  function Fuel(p: Proc): nat {
    if !p.alive then 0 else if |p.todo| == 0 then 1 else 10 * |p.todo| + Rank(p.pc)
  }

  function TotalFuel(procs: seq<Proc>): nat {
    if |procs| == 0 then 0 else TotalFuel(Front(procs)) + Fuel(Last(procs))
  }

  lemma {:induction false} FuelUpdate(procs: seq<Proc>, i: nat, p: Proc)
    requires i < |procs|
    ensures TotalFuel(procs[i := p]) == TotalFuel(procs) - Fuel(procs[i]) + Fuel(p)
  {
    if i < |procs| - 1 {
      FuelUpdate(Front(procs), i, p);
      assert Front(procs[i := p]) == Front(procs)[i := p];
    } else {
      assert Front(procs[i := p]) == Front(procs);
    }
  }

  lemma StepBurnsFuel(s: System, i: nat)
    requires LocalInv(s) && Enabled(s, Step(i))
    ensures Fuel(StepProc(s, i).procs[i]) < Fuel(s.procs[i])
  {
    StepMoves(s, i);
  }

  lemma FailureBurnsFuel(s: System, e: Event)
    requires LocalInv(s) && Enabled(s, e) && !e.Step?
    ensures Fuel(Apply(s, e).procs[e.proc]) < Fuel(s.procs[e.proc])
  {
  }

  lemma EventBurnsFuel(s: System, e: Event)
    requires LocalInv(s) && Enabled(s, e)
    ensures TotalFuel(Apply(s, e).procs) < TotalFuel(s.procs)
  {
    var i, p := e.proc, Apply(s, e).procs[e.proc];
    EventIsAtomic(s, e);
    FuelUpdate(s.procs, i, p);
    assert Apply(s, e).procs == s.procs[i := p];
    if e.Step? {
      StepBurnsFuel(s, i);
    } else {
      FailureBurnsFuel(s, e);
    }
  }

  /** Every schedule ends, within a number of events fixed by the programs at the start. */
  lemma {:induction false} RunsAreFinite(s: System, events: seq<Event>)
    requires Initial(s) && Legal(s, events)
    ensures |events| + TotalFuel(After(s, events).procs) <= TotalFuel(s.procs)
  {
    if |events| > 0 {
      RunsAreFinite(s, Front(events));
      Serializable(s, Front(events));
      EventBurnsFuel(After(s, Front(events)), Last(events));
    }
  }

  /** No deadlock: in every reachable state with an unfinished request, some request's next statement can run. */
  lemma NoDeadlock(s: System, events: seq<Event>, i: nat)
    requires Initial(s) && Legal(s, events) && Unfinished(After(s, events), i)
    ensures exists j :: Enabled(After(s, events), Step(j))
  {
    var now := After(s, events);
    Serializable(s, events);
    if now.conn.Some? {
      assert Enabled(now, Step(now.conn.value.owner));
    } else {
      assert Enabled(now, Step(i));
    }
  }
}
