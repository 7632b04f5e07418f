/** Deductions racing on one account. */
module Races {
  import opened Domain
  import opened Sql
  import opened LedgerSpec
  import opened Operations
  import opened Machine
  import opened Serializability
  import opened Safety

  predicate IsDeductionOn(op: Op, account: string) {
    op.RecordOp? && IsDeduction(op.txn.kind) && op.txn.points > 0 && op.txn.account == account
  }

  /** Deductions from one account under refs that are new and all different. */
  ghost predicate FreshDeductions(l: Ledger, log: seq<LogEntry>, account: string) {
    && (forall k :: 0 <= k < |log| ==> IsDeductionOn(log[k].op, account) && FindRef(l.rows, log[k].op.txn.ref).None?)
    && (forall j, k :: 0 <= j < k < |log| ==> log[j].op.txn.ref != log[k].op.txn.ref)
  }

  predicate Accepted(e: LogEntry) {
    e.resp.Recorded? && e.resp.outcome.Stored? && e.resp.outcome.created
  }

  function CountAccepted(log: seq<LogEntry>): nat {
    if |log| == 0 then 0 else CountAccepted(Front(log)) + if Accepted(Last(log)) then 1 else 0
  }

  /** The points that the call took from the account. */
  function Granted(e: LogEntry): int {
    if Accepted(e) && e.op.RecordOp? then e.op.txn.points else 0
  }

  function SumAccepted(log: seq<LogEntry>): int {
    if |log| == 0 then 0 else SumAccepted(Front(log)) + Granted(Last(log))
  }

  ghost predicate StillFresh(l: Ledger, log: seq<LogEntry>, ref: string) {
    FindRef(l.rows, ref).None? && forall k :: 0 <= k < |log| && log[k].op.RecordOp? ==> log[k].op.txn.ref != ref
  }

  lemma {:induction false} FreshAfter(l: Ledger, log: seq<LogEntry>, ref: string)
    requires StillFresh(l, log, ref)
    ensures FindRef(Replay(l, log).rows, ref).None?
  {
    if |log| > 0 {
      var before, op := Replay(l, Front(log)), Last(log).op;
      assert op.RecordOp? ==> op.txn.ref != ref by {
        assert log[|log| - 1] == Last(log);
      }
      assert forall k :: 0 <= k < |Front(log)| ==> Front(log)[k] == log[k];
      FreshAfter(l, Front(log), ref);
      OtherRefsStay(before, op, ref);
    }
  }

  lemma OtherRefsStay(l: Ledger, op: Op, ref: string)
    requires op.RecordOp? ==> op.txn.ref != ref
    ensures FindRef(Exec(l, op).0.rows, ref) == FindRef(l.rows, ref)
  {
    if op.RecordOp? {
      FrontOfAppend(l.rows, ToRow(op.txn, NextId(l.rows)));
    }
  }

  /** One more deduction, decided on the ledger `l` left by those before it. */
  lemma OneDeduction(l: Ledger, e: LogEntry, account: string)
    requires Valid(l) && HasAccount(l, account) && SqlSum(l.rows, account).Some?
    requires IsDeductionOn(e.op, account) && FindRef(l.rows, e.op.txn.ref).None? && Exec(l, e.op).1 == e.resp
    ensures var after := Exec(l, e.op).0;
            && HasAccount(after, account) && SqlSum(after.rows, account) == Some(Net(after.rows, account))
            && Net(after.rows, account) == Net(l.rows, account) - Granted(e)
            && Net(after.rows, account) >= 0
            && (!Accepted(e) ==> e.resp == Recorded(Failed(InsufficientBalance)) && e.op.txn.points > Net(l.rows, account))
  {
    var t := e.op.txn;
    RecordOutcomes(l, t);
    SqlSumIsNet(l.rows, account);
    SolventNow(l.rows, account);
    assert ChecksPass(t.kind, t.points);
    GuardSum(l, t);
  }

  lemma FreshFront(l: Ledger, log: seq<LogEntry>, account: string)
    requires FreshDeductions(l, log, account) && |log| > 0
    ensures FreshDeductions(l, Front(log), account)
    ensures IsDeductionOn(Last(log).op, account) && StillFresh(l, Front(log), Last(log).op.txn.ref)
  {
    assert forall k :: 0 <= k < |Front(log)| ==> Front(log)[k] == log[k];
    assert Last(log) == log[|log| - 1];
  }

  /** What is left of the account, and that every refusal was for asking more than that. */
  ghost predicate RaceTold(log: seq<LogEntry>, left: int) {
    forall k :: 0 <= k < |log| && !Accepted(log[k]) ==>
      log[k].resp == Recorded(Failed(InsufficientBalance)) && log[k].op.RecordOp? && log[k].op.txn.points > left
  }

  lemma RaceToldMore(log: seq<LogEntry>, left: int, less: int)
    requires |log| > 0 && RaceTold(Front(log), left) && less <= left
    requires !Accepted(Last(log)) ==>
               && Last(log).resp == Recorded(Failed(InsufficientBalance))
               && Last(log).op.RecordOp? && Last(log).op.txn.points > less
    ensures RaceTold(log, less)
  {
    assert forall k :: 0 <= k < |Front(log)| ==> Front(log)[k] == log[k];
  }

  /** How a race stands: the ledger, and what is left of the account. */
  ghost predicate Stands(l: Ledger, log: seq<LogEntry>, account: string, left: int) {
    left >= 0 && Net(l.rows, account) == left && SqlSum(l.rows, account) == Some(left) && RaceTold(log, left)
  }

  lemma RaceGoesOn(before: Ledger, log: seq<LogEntry>, account: string, left: int)
    requires |log| > 0 && Valid(before) && HasAccount(before, account) && Stands(before, Front(log), account, left)
    requires IsDeductionOn(Last(log).op, account) && FindRef(before.rows, Last(log).op.txn.ref).None?
    requires Exec(before, Last(log).op).1 == Last(log).resp
    ensures Stands(Exec(before, Last(log).op).0, log, account, left - Granted(Last(log)))
  {
    OneDeduction(before, Last(log), account);
    RaceToldMore(log, left, left - Granted(Last(log)));
  }

  lemma RaceStarts(l: Ledger, account: string)
    requires Valid(l) && HasAccount(l, account) && SqlSum(l.rows, account).Some?
    ensures Stands(l, [], account, Net(l.rows, account))
  {
    SqlSumIsNet(l.rows, account);
    SolventNow(l.rows, account);
  }

  lemma LastIsFaithful(l: Ledger, log: seq<LogEntry>)
    requires |log| > 0 && Faithful(l, log)
    ensures Faithful(l, Front(log)) && Exec(Replay(l, Front(log)), Last(log).op) == (Replay(l, log), Last(log).resp)
  {
  }

  lemma {:induction false} AccountStays(l: Ledger, log: seq<LogEntry>, account: string)
    requires HasAccount(l, account)
    ensures HasAccount(Replay(l, log), account)
  {
    if |log| > 0 {
      AccountStays(l, Front(log), account);
      ExecExtends(Replay(l, Front(log)), Last(log).op);
    }
  }

  lemma RaceStep(l: Ledger, log: seq<LogEntry>, account: string, left: int)
    requires |log| > 0 && Valid(l) && HasAccount(l, account)
    requires FreshDeductions(l, log, account) && Faithful(l, log)
    requires Stands(Replay(l, Front(log)), Front(log), account, left)
    ensures Stands(Replay(l, log), log, account, left - Granted(Last(log)))
  {
    FreshFront(l, log, account);
    LastIsFaithful(l, log);
    FreshAfter(l, Front(log), Last(log).op.txn.ref);
    ReplayKeepsValid(l, Front(log));
    AccountStays(l, Front(log), account);
    RaceGoesOn(Replay(l, Front(log)), log, account, left);
  }

  /** Whatever the order: the balance falls by exactly what was accepted, so never below zero,
      and every refused amount exceeds what is left at the end. */
  lemma {:induction false} RaceOfAmounts(l: Ledger, log: seq<LogEntry>, account: string) returns (left: int)
    requires Valid(l) && HasAccount(l, account) && SqlSum(l.rows, account).Some?
    requires FreshDeductions(l, log, account) && Faithful(l, log)
    ensures Stands(Replay(l, log), log, account, left) && left == Net(l.rows, account) - SumAccepted(log)
    decreases |log|
  {
    if |log| == 0 {
      RaceStarts(l, account);
      assert log == [];
      left := Net(l.rows, account);
    } else {
      FreshFront(l, log, account);
      left := RaceOfAmounts(l, Front(log), account);
      RaceStep(l, log, account, left);
      left := left - Granted(Last(log));
    }
  }

  lemma {:induction false} EqualAmounts(log: seq<LogEntry>, points: int)
    requires forall k :: 0 <= k < |log| ==> log[k].op.RecordOp? && log[k].op.txn.points == points
    ensures SumAccepted(log) == points * CountAccepted(log) && CountAccepted(log) <= |log|
    ensures CountAccepted(log) < |log| ==> exists k :: 0 <= k < |log| && !Accepted(log[k])
  {
    if |log| > 0 {
      assert Last(log) == log[|log| - 1];
      assert forall k :: 0 <= k < |Front(log)| ==> Front(log)[k] == log[k];
      EqualAmounts(Front(log), points);
    }
  }

  lemma MulMonotonic(p: int, a: int, b: int)
    requires p > 0 && a <= b
    ensures p * a <= p * b
  {
  }

  /** n is the quotient when n fit and one more would not; at least n fit when n do. */
  lemma Quotient(balance: int, points: int, n: nat)
    requires points > 0 && points * n <= balance
    ensures balance / points >= n
    ensures balance < points * n + points ==> balance / points == n
  {
    var q := balance / points;
    assert points * q <= balance < points * q + points;
    if q + 1 <= n {
      MulMonotonic(points, q + 1, n);
    }
    if n + 1 <= q {
      MulMonotonic(points, n + 1, q);
    }
  }

  lemma RaceOfEqualAmounts(l: Ledger, log: seq<LogEntry>, account: string, points: int)
    requires Valid(l) && HasAccount(l, account) && SqlSum(l.rows, account).Some? && points > 0
    requires FreshDeductions(l, log, account) && Faithful(l, log)
    requires forall k :: 0 <= k < |log| ==> log[k].op.txn.points == points
    ensures var fit := Net(l.rows, account) / points;
            CountAccepted(log) == if |log| <= fit then |log| else fit
  {
    var left := RaceOfAmounts(l, log, account);
    EqualAmounts(log, points);
    var balance, n := Net(l.rows, account), CountAccepted(log);
    Quotient(balance, points, n);
  }

  // From programs to the log

  lemma {:induction false} EffectsWithinEndings(endings: seq<Ending>)
    ensures |Effects(endings)| <= |endings|
    ensures forall x :: x in Effects(endings) ==> x.0 in EndedOps(endings)
  {
    if |endings| > 0 {
      EffectsWithinEndings(Front(endings));
      assert EndedOps(endings) == EndedOps(Front(endings)) + [Last(endings).op];
    }
  }

  /** A program's trace stays within the program. */
  lemma TraceWithinProgram(p: Proc)
    ensures |TraceOf(p)| <= |ProgramOf(p)|
    ensures forall x :: x in TraceOf(p) ==> x.0 in ProgramOf(p)
  {
    EffectsWithinEndings(p.endings);
  }

  lemma {:induction false} MineHas(log: seq<LogEntry>, k: nat)
    requires k < |log|
    ensures (log[k].op, log[k].resp) in Mine(log, log[k].proc)
  {
    if k < |log| - 1 {
      MineHas(Front(log), k);
    }
  }

  lemma {:induction false} MineHasBoth(log: seq<LogEntry>, j: nat, k: nat)
    requires j < k < |log| && log[j].proc == log[k].proc
    ensures |Mine(log, log[j].proc)| >= 2
  {
    if k < |log| - 1 {
      MineHasBoth(Front(log), j, k);
    } else {
      MineHas(Front(log), j);
    }
  }

  function MineTotal(log: seq<LogEntry>, n: nat): nat {
    if n == 0 then 0 else MineTotal(log, n - 1) + |Mine(log, n - 1)|
  }

  lemma {:induction false} MineTotalStep(log: seq<LogEntry>, n: nat)
    requires |log| > 0
    ensures MineTotal(log, n) == MineTotal(Front(log), n) + if Last(log).proc < n then 1 else 0
  {
    if n > 0 {
      MineTotalStep(log, n - 1);
    }
  }

  lemma {:induction false} MineNothing(n: nat)
    ensures MineTotal([], n) == 0
  {
    if n > 0 {
      MineNothing(n - 1);
    }
  }

  lemma {:induction false} MinePartitions(log: seq<LogEntry>, n: nat)
    requires forall k :: 0 <= k < |log| ==> log[k].proc < n
    ensures MineTotal(log, n) == |log|
  {
    if |log| == 0 {
      MineNothing(n);
    } else {
      assert log[|log| - 1] == Last(log);
      assert forall k :: 0 <= k < |Front(log)| ==> Front(log)[k] == log[k];
      MinePartitions(Front(log), n);
      MineTotalStep(log, n);
    }
  }

  lemma {:induction false} MineOfOnes(log: seq<LogEntry>, n: nat)
    requires forall i: nat :: i < n ==> |Mine(log, i)| == 1
    ensures MineTotal(log, n) == n
  {
    if n > 0 {
      MineOfOnes(log, n - 1);
    }
  }

  /** Every program is a single deduction from `account`, each under its own new ref. */
  ghost predicate Racing(l: Ledger, program: seq<seq<Op>>, account: string) {
    && (forall i :: 0 <= i < |program| ==>
          |program[i]| == 1 && IsDeductionOn(program[i][0], account) && FindRef(l.rows, program[i][0].txn.ref).None?)
    && (forall i, j :: 0 <= i < |program| && 0 <= j < |program| && i != j ==>
          program[i][0].txn.ref != program[j][0].txn.ref)
  }

  ghost predicate RacingPrograms(s: System, account: string) {
    Racing(s.committed, Programs(s), account)
  }

  ghost predicate AllAsk(s: System, points: int) {
    forall p: seq<Op> :: p in Programs(s) ==> |p| == 1 && p[0].RecordOp? && p[0].txn.points == points
  }

  /** What takes effect is what the programs hold. */
  lemma LogWithinPrograms(l: Ledger, program: seq<seq<Op>>, now: System, k: nat)
    requires Serial(l, program, now) && k < |now.log|
    ensures now.log[k].proc < |program| && now.log[k].op in program[now.log[k].proc]
  {
    var i := now.log[k].proc;
    MineHas(now.log, k);
    TraceWithinProgram(now.procs[i]);
    assert Mine(now.log, i) == TraceOf(now.procs[i]) && ProgramOf(now.procs[i]) == program[i];
  }

  lemma OneEntryEach(l: Ledger, program: seq<seq<Op>>, now: System, j: nat, k: nat)
    requires Serial(l, program, now) && j < k < |now.log| && |program[now.log[j].proc]| == 1
    ensures now.log[j].proc != now.log[k].proc
  {
    var i := now.log[j].proc;
    TraceWithinProgram(now.procs[i]);
    assert Mine(now.log, i) == TraceOf(now.procs[i]) && ProgramOf(now.procs[i]) == program[i];
    if i == now.log[k].proc {
      MineHasBoth(now.log, j, k);
    }
  }

  lemma RacingEntry(l: Ledger, program: seq<seq<Op>>, now: System, account: string, k: nat)
    requires Serial(l, program, now) && Racing(l, program, account) && k < |now.log|
    ensures now.log[k].op == program[now.log[k].proc][0]
    ensures IsDeductionOn(now.log[k].op, account) && FindRef(l.rows, now.log[k].op.txn.ref).None?
  {
    LogWithinPrograms(l, program, now, k);
  }

  lemma RacingLog(l: Ledger, program: seq<seq<Op>>, now: System, account: string)
    requires Serial(l, program, now) && Racing(l, program, account)
    ensures FreshDeductions(l, now.log, account)
    ensures forall k :: 0 <= k < |now.log| ==> now.log[k].op == program[now.log[k].proc][0]
  {
    forall k | 0 <= k < |now.log|
      ensures now.log[k].op == program[now.log[k].proc][0]
      ensures IsDeductionOn(now.log[k].op, account) && FindRef(l.rows, now.log[k].op.txn.ref).None?
    {
      RacingEntry(l, program, now, account, k);
    }
    forall j, k | 0 <= j < k < |now.log| ensures now.log[j].op.txn.ref != now.log[k].op.txn.ref {
      OneEntryEach(l, program, now, j, k);
    }
  }

  /** Any number of deductions, spends and redeems mixed, racing from separate requests, in any schedule with
      failures and deaths: the balance falls by exactly what was granted and never below zero, and nobody was
      refused an amount that the account could still pay. */
  lemma RaceNeverOverspends(s: System, events: seq<Event>, account: string)
    requires Initial(s) && Legal(s, events) && RacingPrograms(s, account)
    requires Valid(s.committed) && HasAccount(s.committed, account) && SqlSum(s.committed.rows, account).Some?
    ensures var now := After(s, events);
            var left := Net(s.committed.rows, account) - SumAccepted(now.log);
            left >= 0 && Net(now.committed.rows, account) == left && RaceTold(now.log, left)
  {
    Serializable(s, events);
    RacingLog(s.committed, Programs(s), After(s, events), account);
    var left := RaceOfAmounts(s.committed, After(s, events).log, account);
  }

  /** When all ask for the same amount: of the requests decided so far exactly as many succeed as the balance pays for. */
  lemma RaceIsExact(s: System, events: seq<Event>, account: string, points: int)
    requires Initial(s) && Legal(s, events) && RacingPrograms(s, account) && AllAsk(s, points) && points > 0
    requires Valid(s.committed) && HasAccount(s.committed, account) && SqlSum(s.committed.rows, account).Some?
    ensures var log := After(s, events).log;
            var fit := Net(s.committed.rows, account) / points;
            CountAccepted(log) == if |log| <= fit then |log| else fit
  {
    Serializable(s, events);
    RacingLog(s.committed, Programs(s), After(s, events), account);
    RaceOfEqualAmounts(s.committed, After(s, events).log, account, points);
  }

  lemma OneAnswer(p: Proc)
    requires |p.endings| == 1 && p.endings[0].Answered? && |ProgramOf(p)| == 1
    ensures |TraceOf(p)| == 1
  {
    assert Front(p.endings) == [];
    TraceWithinProgram(p);
  }

  /** When all k requests have been answered, exactly min(k, balance / points) of them succeeded. */
  lemma FinishedRace(s: System, events: seq<Event>, account: string, points: int)
    requires Initial(s) && Legal(s, events) && RacingPrograms(s, account) && AllAsk(s, points) && points > 0
    requires Valid(s.committed) && HasAccount(s.committed, account) && SqlSum(s.committed.rows, account).Some?
    requires forall p :: p in After(s, events).procs ==> |p.endings| == 1 && p.endings[0].Answered?
    ensures var k := |s.procs|;
            var fit := Net(s.committed.rows, account) / points;
            |After(s, events).log| == k && CountAccepted(After(s, events).log) == if k <= fit then k else fit
  {
    var now := After(s, events);
    Serializable(s, events);
    forall i: nat | i < |now.procs| ensures |Mine(now.log, i)| == 1 {
      assert Mine(now.log, i) == TraceOf(now.procs[i]);
      OneAnswer(now.procs[i]);
    }
    MineOfOnes(now.log, |now.procs|);
    MinePartitions(now.log, |now.procs|);
    RaceIsExact(s, events, account, points);
  }
}
