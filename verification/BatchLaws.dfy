/** What an upload does to the ledger, its summary and its audit trail, once, twice and for ever. */
module BatchLaws {
  import opened Domain
  import opened Sql
  import opened LedgerSpec
  import opened Overflow
  import opened Batch

  // Runs

  /** The signed points an accepted audit entry stands for. */
  function AcceptedEffect(e: AuditEntry, account: string): int {
    if e.outcome == Accepted && e.account == account then Signed(KindOf(e.kind), e.points) else 0
  }

  lemma KindRoundTrip(k: Kind)
    requires !k.Other?
    ensures KindOf(KindText(k)) == k
  {
  }

  lemma RecordFacts(l: Ledger, t: Transaction, f: Fault)
    requires Valid(l)
    ensures var (after, o) := RecordWith(l, t, f);
            && Valid(after) && Extends(l, after) && after.accounts == l.accounts
            && if o.Stored? && o.created then
                 && FindRef(l.rows, t.ref).None? && !t.kind.Other?
                 && after.rows == l.rows + [ToRow(t, NextId(l.rows))]
                 && forall a :: Net(after.rows, a) == Net(l.rows, a) + if a == t.account then Signed(t.kind, t.points) else 0
               else after == l
  {
    FaultIsAllOrNothing(l, t, f);
    RecordKeepsValid(l, t);
    RecordOutcomes(l, t);
  }

  /** One row: a constraint-keeping step of the ledger, described by its audit entry. */
  lemma RowStepFacts(l: Ledger, p: Plan, f: Fault)
    requires Valid(l)
    ensures var (after, e) := RowStep(l, p, f);
            && Valid(after) && Extends(l, after) && after.accounts == l.accounts
            && (e.outcome == Accepted || e.outcome == Rejected || e.outcome == Duplicate)
            && (e.outcome != Accepted ==> after == l)
            && (e.outcome == Accepted ==>
                  && p.Submit? && FindRef(l.rows, p.txn.ref).None?
                  && after.rows == l.rows + [ToRow(p.txn, NextId(l.rows))])
            && (forall a :: Net(after.rows, a) == Net(l.rows, a) + AcceptedEffect(e, a))
  {
    match p
    case Settled(_) =>
    case Submit(t) =>
      var (after, o) := RecordWith(l, t, f);
      var e := EntryFor(t, o);
      assert RowStep(l, p, f) == (after, e);
      RecordFacts(l, t, f);
      EntryTells(t, o);
      forall a ensures Net(after.rows, a) == Net(l.rows, a) + AcceptedEffect(e, a) {
      }
  }

  /** The audit entry of an attempt names the attempt and says what became of it. */
  lemma EntryTells(t: Transaction, o: Outcome)
    requires !t.kind.Other?
    ensures var e := EntryFor(t, o);
            && (e.outcome == Accepted <==> o.Stored? && o.created)
            && (e.outcome == Duplicate <==> o.Stored? && !o.created)
            && (e.outcome == Rejected <==> o.Failed?)
            && (e.reason == "account not found" <==> o == Failed(NotFound))
            && (e.reason == "insufficient balance" <==> o == Failed(InsufficientBalance))
            && e.ref == t.ref && e.account == t.account && e.points == t.points && KindOf(e.kind) == t.kind
            && forall a :: AcceptedEffect(e, a) ==
                 if o.Stored? && o.created && a == t.account then Signed(t.kind, t.points) else 0
  {
    KindRoundTrip(t.kind);
  }

  function AcceptedNet(entries: seq<AuditEntry>, account: string): int {
    if |entries| == 0 then 0 else AcceptedNet(Front(entries), account) + AcceptedEffect(Last(entries), account)
  }

  function Count(entries: seq<AuditEntry>, o: AuditOutcome): nat {
    if |entries| == 0 then 0 else Count(Front(entries), o) + if Last(entries).outcome == o then 1 else 0
  }

  lemma {:induction false} RunFacts(l: Ledger, file: seq<Item>)
    requires Valid(l)
    ensures var run := RunFile(l, file);
            Valid(run.ledger) && Extends(l, run.ledger) && run.ledger.accounts == l.accounts
  {
    if |file| > 0 {
      RunFacts(l, Front(file));
      RowStepFacts(RunFile(l, Front(file)).ledger, Last(file).plan, Last(file).fault);
    }
  }

  /** Row k meets the ledger that the rows before it leave. */
  lemma {:induction false} RunAt(l: Ledger, file: seq<Item>, k: nat)
    requires Valid(l) && k < |file|
    ensures var before := RunFile(l, file[..k]).ledger;
            && RunFile(l, file).entries[k] == RowStep(before, file[k].plan, file[k].fault).1
            && Valid(before) && before.accounts == l.accounts
            && Extends(l, before)
            && Extends(RowStep(before, file[k].plan, file[k].fault).0, RunFile(l, file).ledger)
  {
    RunFacts(l, file[..k]);
    if k < |file| - 1 {
      RunAt(l, Front(file), k);
      assert Front(file)[..k] == file[..k];
      RunFacts(l, Front(file));
      RowStepFacts(RunFile(l, Front(file)).ledger, Last(file).plan, Last(file).fault);
    } else {
      assert file[..k] == Front(file);
    }
  }

  // One upload

  lemma OneMoreRow(entries: seq<AuditEntry>, e: AuditEntry)
    ensures Summarise(entries + [e]) == Bump(Summarise(entries), e.outcome)
    ensures forall o :: Count(entries + [e], o) == Count(entries, o) + if e.outcome == o then 1 else 0
    ensures forall a :: AcceptedNet(entries + [e], a) == AcceptedNet(entries, a) + AcceptedEffect(e, a)
  {
    FrontOfAppend(entries, e);
  }

  /** Summary, audit trail and ledger agree, whatever store faults the rows meet: the buckets are the outcome
      counts and cover every row, each accepted row is one new ledger row, and each account moves by exactly
      the signed points of its accepted entries. */
  lemma {:induction false} UploadReconciles(l: Ledger, file: seq<Item>)
    requires Valid(l)
    ensures var run := RunFile(l, file);
            var s := Summarise(run.entries);
            && s.processed == |file| == s.accepted + s.rejected + s.duplicates
            && s.accepted == Count(run.entries, Accepted) == |run.ledger.rows| - |l.rows|
            && s.rejected == Count(run.entries, Rejected)
            && s.duplicates == Count(run.entries, Duplicate)
            && forall a :: Net(run.ledger.rows, a) == Net(l.rows, a) + AcceptedNet(run.entries, a)
  {
    if |file| > 0 {
      var before := RunFile(l, Front(file));
      var e := RowStep(before.ledger, Last(file).plan, Last(file).fault).1;
      UploadReconciles(l, Front(file));
      RunFacts(l, Front(file));
      RowStepFacts(before.ledger, Last(file).plan, Last(file).fault);
      OneMoreRow(before.entries, e);
    }
  }

  /** With working audit writes the trail gains exactly one entry per row, in file order. */
  lemma {:induction false} EveryRowAudited(file: seq<Item>, entries: seq<AuditEntry>)
    requires |file| == |entries| && forall i :: 0 <= i < |file| ==> file[i].audited
    ensures Audited(file, entries) == entries
  {
    if |file| > 0 {
      assert Last(file) == file[|file| - 1] && entries == Front(entries) + [Last(entries)];
      assert forall i :: 0 <= i < |Front(file)| ==> Front(file)[i] == file[i];
      EveryRowAudited(Front(file), Front(entries));
    }
  }

  ghost predicate SameButAudit(f: seq<Item>, g: seq<Item>) {
    |f| == |g| && forall i :: 0 <= i < |f| ==> f[i].plan == g[i].plan && f[i].fault == g[i].fault
  }

  /** No pattern of failing audit writes changes ledger, entries or summary. */
  lemma {:induction false} RunIgnoresAudit(l: Ledger, f: seq<Item>, g: seq<Item>)
    requires SameButAudit(f, g)
    ensures RunFile(l, f) == RunFile(l, g)
  {
    if |f| > 0 {
      RunIgnoresAudit(l, Front(f), Front(g));
    }
  }

  // Uploading again

  ghost predicate Calm(file: seq<Item>) {
    forall i :: 0 <= i < |file| ==> file[i].fault == NoFault
  }

  /** A row that recorded or replayed a ref stays a replay on every later ledger. */
  lemma StaysDuplicate(l: Ledger, later: Ledger, p: Plan)
    requires Valid(l) && Valid(later) && later.accounts == l.accounts
    requires Extends(RowStep(l, p, NoFault).0, later) && RowStep(l, p, NoFault).1.outcome != Rejected
    ensures RowStep(later, p, NoFault).1.outcome == Duplicate
  {
    var t := p.txn;
    FaultIsAllOrNothing(l, t, NoFault);
    FaultIsAllOrNothing(later, t, NoFault);
    RecordOutcomes(l, t);
    var after := Record(l, t).0;
    RecordKeepsValid(l, t);
    if FindRef(l.rows, t.ref).None? {
      assert Last(after.rows).ref == t.ref;
    }
    FindRefLater(after, later, t.ref);
    RecordOutcomes(later, t);
  }

  /** A refusal that did not come from the balance guard: unusable row, invalid input or unknown account. */
  predicate FinalRefusal(l: Ledger, p: Plan) {
    p.Settled? || !HasAccount(l, p.txn.account)
  }

  lemma FinalRefusalRepeats(l: Ledger, later: Ledger, p: Plan)
    requires FinalRefusal(l, p) && later.accounts == l.accounts
    ensures RowStep(l, p, NoFault).1 == RowStep(later, p, NoFault).1 && RowStep(l, p, NoFault).1.outcome == Rejected
  {
  }

  /** Any other refusal is the guard's: the points do not suffice, or the balance cannot be computed. */
  lemma GuardRefusal(l: Ledger, p: Plan)
    requires Valid(l) && !FinalRefusal(l, p) && RowStep(l, p, NoFault).1.outcome == Rejected
    ensures p.txn.kind == Spend
    ensures RowStep(l, p, NoFault).1.reason == "insufficient balance" || SqlSum(l.rows, p.txn.account).None?
  {
    FaultIsAllOrNothing(l, p.txn, NoFault);
    RecordOutcomes(l, p.txn);
  }

  /** Uploading a file again, with nothing in between: what was recorded or replayed is a replay, final refusals
      are repeated word for word, and only spends refused by the balance guard may fare differently. */
  lemma SecondPass(l: Ledger, file: seq<Item>, i: nat)
    requires Valid(l) && Calm(file) && i < |file|
    ensures var once := RunFile(l, file);
            var twice := RunFile(once.ledger, file);
            && (once.entries[i].outcome != Rejected ==> twice.entries[i].outcome == Duplicate)
            && (FinalRefusal(l, file[i].plan) ==>
                  once.entries[i].outcome == Rejected && twice.entries[i] == once.entries[i])
            && (once.entries[i].outcome == Rejected && !FinalRefusal(l, file[i].plan) ==>
                  var spend := file[i].plan.txn;
                  var met := RunFile(l, file[..i]).ledger;
                  spend.kind == Spend &&
                  (once.entries[i].reason == "insufficient balance" || SqlSum(met.rows, spend.account).None?))
  {
    var once := RunFile(l, file);
    RunFacts(l, file);
    RunAt(l, file, i);
    RunAt(once.ledger, file, i);
    var first, second := RunFile(l, file[..i]).ledger, RunFile(once.ledger, file[..i]).ledger;
    if FinalRefusal(l, file[i].plan) {
      FinalRefusalRepeats(first, second, file[i].plan);
    } else if once.entries[i].outcome == Rejected {
      GuardRefusal(first, file[i].plan);
    } else {
      StaysDuplicate(first, second, file[i].plan);
    }
  }

  /** The row would be recorded: its ref is new on a known account, and its points, if deducted, are there. */
  predicate Recordable(l: Ledger, p: Plan) {
    p.Submit? && Fresh(l, p.txn) && Covered(l, p.txn)
  }

  ghost predicate NothingToRecord(l: Ledger, file: seq<Item>) {
    forall i :: 0 <= i < |file| ==> !Recordable(l, file[i].plan)
  }

  lemma RecordableIsAccepted(l: Ledger, p: Plan)
    requires Valid(l)
    ensures RowStep(l, p, NoFault).1.outcome == Accepted <==> Recordable(l, p)
  {
    if p.Submit? {
      FaultIsAllOrNothing(l, p.txn, NoFault);
      RecordOutcomes(l, p.txn);
      EntryTells(p.txn, Record(l, p.txn).1);
    }
  }

  lemma NothingToRecordFront(l: Ledger, file: seq<Item>)
    requires |file| > 0
    ensures NothingToRecord(l, file) <==> NothingToRecord(l, Front(file)) && !Recordable(l, Last(file).plan)
  {
    assert forall i :: 0 <= i < |Front(file)| ==> Front(file)[i] == file[i];
    assert Last(file) == file[|file| - 1];
  }

  /** A pass changes nothing exactly when the ledger it meets has nothing to record of the file. */
  lemma {:induction false} PassIsNoOp(l: Ledger, file: seq<Item>)
    requires Valid(l) && Calm(file)
    ensures RunFile(l, file).ledger == l <==> NothingToRecord(l, file)
  {
    if |file| > 0 {
      var before, last := RunFile(l, Front(file)).ledger, Last(file);
      assert last.fault == NoFault && Calm(Front(file)) by {
        assert last == file[|file| - 1];
      }
      PassIsNoOp(l, Front(file));
      RunFacts(l, Front(file));
      RowStepFacts(before, last.plan, NoFault);
      NothingToRecordFront(l, file);
      RecordableIsAccepted(l, last.plan);
      if before != l {
        assert |before.rows| > |l.rows|;
      }
    }
  }

  /** A pass refused the row at the balance guard. */
  predicate RefusedByGuard(l: Ledger, file: seq<Item>, i: nat)
    requires i < |file|
  {
    RunFile(l, file).entries[i].outcome == Rejected && !FinalRefusal(l, file[i].plan)
  }

  /** What of row i is left to record after a pass: only a spend the guard refused, if its ref is still new
      and the points are there by now. */
  lemma {:induction false} LeftToRecord(l: Ledger, file: seq<Item>, i: nat)
    requires Valid(l) && Calm(file) && i < |file|
    ensures var once := RunFile(l, file).ledger;
            Recordable(once, file[i].plan) <==>
            RefusedByGuard(l, file, i) && FindRef(once.rows, file[i].plan.txn.ref).None? && Covered(once, file[i].plan.txn)
  {
    var once, plan := RunFile(l, file), file[i].plan;
    RunFacts(l, file);
    RunAt(l, file, i);
    var met := RunFile(l, file[..i]).ledger;
    RowStepFacts(met, plan, NoFault);
    if once.entries[i].outcome != Rejected {
      StaysDuplicate(met, once.ledger, plan);
      RecordableIsAccepted(once.ledger, plan);
    }
  }

  /** Uploading a file again at once is without effect exactly when every spend that the guard refused the first
      time was overtaken by a row with its ref, or still lacks the points. */
  lemma SecondPassIsNoOp(l: Ledger, file: seq<Item>)
    requires Valid(l) && Calm(file)
    ensures var once := RunFile(l, file).ledger;
            RunFile(once, file).ledger == once <==>
            forall i :: 0 <= i < |file| && RefusedByGuard(l, file, i) ==>
              FindRef(once.rows, file[i].plan.txn.ref).Some? || !Covered(once, file[i].plan.txn)
  {
    var once := RunFile(l, file).ledger;
    RunFacts(l, file);
    PassIsNoOp(once, file);
    forall i | 0 <= i < |file|
      ensures Recordable(once, file[i].plan) <==>
              RefusedByGuard(l, file, i) && FindRef(once.rows, file[i].plan.txn.ref).None? && Covered(once, file[i].plan.txn)
    {
      LeftToRecord(l, file, i);
    }
  }

  /** The file's refs that the ledger does not hold yet. */
  function AbsentRefs(l: Ledger, file: seq<Item>): set<string> {
    set i | 0 <= i < |file| && file[i].plan.Submit? && FindRef(l.rows, file[i].plan.txn.ref).None?
      :: file[i].plan.txn.ref
  }

  /** A pass that changes the ledger uses up one of the file's absent refs, and none becomes absent. */
  lemma PassUsesRefs(l: Ledger, file: seq<Item>)
    requires Valid(l)
    ensures var after := RunFile(l, file).ledger;
            && AbsentRefs(after, file) <= AbsentRefs(l, file)
            && (after != l ==> |AbsentRefs(after, file)| < |AbsentRefs(l, file)|)
  {
    var after := RunFile(l, file).ledger;
    RunFacts(l, file);
    forall ref | FindRef(after.rows, ref).None? ensures FindRef(l.rows, ref).None? {
      if FindRef(l.rows, ref).Some? {
        FindRefLater(l, after, ref);
      }
    }
    if after != l {
      var ref := UsedRef(l, file);
      assert ref in AbsentRefs(l, file) - AbsentRefs(after, file);
      assert AbsentRefs(after, file) <= AbsentRefs(l, file) - {ref};
    }
    FewerRefs(AbsentRefs(after, file), AbsentRefs(l, file));
  }

  lemma FewerRefs(a: set<string>, b: set<string>)
    requires a <= b
    ensures |a| <= |b| && (a != b ==> |a| < |b|)
  {
    assert b == a + (b - a);
  }

  lemma {:induction false} SomeAccepted(entries: seq<AuditEntry>)
    requires Count(entries, Accepted) > 0
    ensures exists i :: 0 <= i < |entries| && entries[i].outcome == Accepted
  {
    if Last(entries).outcome != Accepted {
      SomeAccepted(Front(entries));
      var i :| 0 <= i < |Front(entries)| && Front(entries)[i].outcome == Accepted;
      assert entries[i].outcome == Accepted;
    } else {
      assert entries[|entries| - 1].outcome == Accepted;
    }
  }

  lemma UsedRef(l: Ledger, file: seq<Item>) returns (ref: string)
    requires Valid(l) && RunFile(l, file).ledger != l
    ensures ref in AbsentRefs(l, file) && FindRef(RunFile(l, file).ledger.rows, ref).Some?
  {
    var run := RunFile(l, file);
    RunFacts(l, file);
    UploadReconciles(l, file);
    SomeAccepted(run.entries);
    var i :| 0 <= i < |file| && run.entries[i].outcome == Accepted;
    RunAt(l, file, i);
    var before := RunFile(l, file[..i]).ledger;
    RowStepFacts(before, file[i].plan, file[i].fault);
    ref := file[i].plan.txn.ref;
    if FindRef(l.rows, ref).Some? {
      FindRefLater(l, before, ref);
    }
    var after := RowStep(before, file[i].plan, file[i].fault).0;
    FrontOfAppend(before.rows, ToRow(file[i].plan.txn, NextId(before.rows)));
    FindRefLater(after, run.ledger, ref);
  }

  function Passes(l: Ledger, file: seq<Item>, n: nat): Ledger {
    if n == 0 then l else RunFile(Passes(l, file, n - 1), file).ledger
  }

  lemma {:induction false} PassesAreValid(l: Ledger, file: seq<Item>, n: nat)
    requires Valid(l)
    ensures Valid(Passes(l, file, n))
  {
    if n > 0 {
      PassesAreValid(l, file, n - 1);
      RunFacts(Passes(l, file, n - 1), file);
    }
  }

  lemma {:induction false} PassesSettle(l: Ledger, file: seq<Item>, n: nat)
    requires Valid(l)
    ensures Passes(l, file, n + 1) == Passes(l, file, n)
            || |AbsentRefs(Passes(l, file, n), file)| + n <= |AbsentRefs(l, file)|
  {
    PassesAreValid(l, file, n);
    if n > 0 {
      PassesSettle(l, file, n - 1);
      PassesAreValid(l, file, n - 1);
      PassUsesRefs(Passes(l, file, n - 1), file);
    }
  }

  /** Repeating a file reaches a fixed point after at most as many passes as it has absent refs. */
  lemma RepeatedUploadSettles(l: Ledger, file: seq<Item>, n: nat)
    requires Valid(l) && n >= |AbsentRefs(l, file)|
    ensures Passes(l, file, n + 1) == Passes(l, file, n)
  {
    PassesSettle(l, file, n);
    PassesAreValid(l, file, n);
    PassUsesRefs(Passes(l, file, n), file);
  }

  lemma PlainRow(l: Ledger, t: Transaction)
    requires Usable(Submit(t))
    ensures var (after, o) := Record(l, t);
            var (left, e) := RowStep(l, Submit(t), NoFault);
            left == after && (e.outcome == Accepted <==> o.Stored? && o.created) && (e.outcome == Rejected <==> o.Failed?)
  {
    FaultIsAllOrNothing(l, t, NoFault);
    EntryTells(t, Record(l, t).1);
  }

  lemma TwoRows(l: Ledger, first: Item, second: Item)
    ensures var (middle, e) := RowStep(l, first.plan, first.fault);
            var (after, f) := RowStep(middle, second.plan, second.fault);
            RunFile(l, [first, second]) == Run(after, [e, f])
  {
    assert Front([first, second]) == [first] && Front([first]) == [];
    assert RunFile(l, []) == Run(l, []);
    var (middle, e) := RowStep(l, first.plan, first.fault);
    assert RunFile(l, [first]) == Run(middle, [] + [e]);
    assert [] + [e] == [e];
  }

  /** What an earn leaves: the points are there, and every other ref is as new as before. */
  lemma EarnLeaves(l: Ledger, earn: Transaction, ref: string)
    requires Valid(l) && Fresh(l, earn) && earn.kind == Earn && SqlSum(l.rows, earn.account).Some? && ref != earn.ref
    requires Net(l.rows, earn.account) + earn.points <= MAX_INT64
    ensures var after := Record(l, earn).0;
            && Valid(after) && after.accounts == l.accounts && FindRef(after.rows, ref) == FindRef(l.rows, ref)
            && Net(after.rows, earn.account) == Net(l.rows, earn.account) + earn.points
            && SqlSum(after.rows, earn.account).Some?
  {
    RecordKeepsValid(l, earn);
    FrontOfAppend(l.rows, ToRow(earn, NextId(l.rows)));
    SqlSumIsNet(l.rows, earn.account);
    SolventNow(l.rows, earn.account);
  }

  lemma RefusedThenEarned(l: Ledger, spend: Transaction, earn: Transaction)
    requires Valid(l) && Usable(Submit(spend)) && Usable(Submit(earn)) && Fresh(l, spend) && Fresh(l, earn)
    requires spend.kind == Spend && earn.kind == Earn && spend.account == earn.account && spend.ref != earn.ref
    requires SqlSum(l.rows, spend.account).Some?
    requires Net(l.rows, spend.account) < spend.points <= Net(l.rows, spend.account) + earn.points <= MAX_INT64
    ensures Record(l, spend) == (l, Failed(InsufficientBalance))
    ensures Valid(Record(l, earn).0) && Recordable(Record(l, earn).0, Submit(spend))
  {
    RecordOutcomes(l, spend);
    EarnLeaves(l, earn, spend.ref);
  }

  /** The spend before the earn it needs: the first pass refuses it and records the earn. */
  lemma EarlySpendIsRefused(l: Ledger, spend: Transaction, earn: Transaction)
    requires Valid(l) && Usable(Submit(spend)) && Usable(Submit(earn))
    requires Record(l, spend) == (l, Failed(InsufficientBalance))
    ensures var file := [Item(Submit(spend), NoFault, true), Item(Submit(earn), NoFault, true)];
            RunFile(l, file).ledger == Record(l, earn).0 && RunFile(l, file).entries[0].outcome == Rejected
  {
    PlainRow(l, spend);
    PlainRow(l, earn);
    TwoRows(l, Item(Submit(spend), NoFault, true), Item(Submit(earn), NoFault, true));
  }

  lemma RecordableChanges(l: Ledger, file: seq<Item>, i: nat)
    requires Valid(l) && Calm(file) && i < |file| && Recordable(l, file[i].plan)
    ensures RunFile(l, file).ledger != l
  {
    PassIsNoOp(l, file);
  }

  /** A spend that stands before the earn it needs: the first pass refuses it, the second accepts it. */
  lemma EarlySpendIsRetried(l: Ledger, spend: Transaction, earn: Transaction)
    requires Valid(l) && Usable(Submit(spend)) && Usable(Submit(earn)) && Fresh(l, spend) && Fresh(l, earn)
    requires spend.kind == Spend && earn.kind == Earn && spend.account == earn.account && spend.ref != earn.ref
    requires SqlSum(l.rows, spend.account).Some?
    requires Net(l.rows, spend.account) < spend.points <= Net(l.rows, spend.account) + earn.points <= MAX_INT64
    ensures var file := [Item(Submit(spend), NoFault, true), Item(Submit(earn), NoFault, true)];
            var once := RunFile(l, file);
            once.entries[0].outcome == Rejected && RunFile(once.ledger, file).ledger != once.ledger
  {
    RefusedThenEarned(l, spend, earn);
    EarlySpendIsRefused(l, spend, earn);
    RecordableChanges(Record(l, earn).0, [Item(Submit(spend), NoFault, true), Item(Submit(earn), NoFault, true)], 0);
  }

  /** So uploading a file twice is not always uploading it once: here is one for which it is not. */
  lemma SecondPassCanAccept(file: seq<Item>)
    requires file == [ Item(Submit(Transaction("r1", "ann", Spend, 5, "", Time(0, 0))), NoFault, true),
                       Item(Submit(Transaction("r2", "ann", Earn, 5, "", Time(0, 0))), NoFault, true) ]
    ensures Valid(OPENED) && RunFile(OPENED, file).entries[0].outcome == Rejected
    ensures RunFile(RunFile(OPENED, file).ledger, file).ledger != RunFile(OPENED, file).ledger
  {
    assert HasAccount(OPENED, "ann");
    EarlySpendIsRetried(OPENED, file[0].plan.txn, file[1].plan.txn);
  }

  // Feasible files

  /** Every row is usable, names an existing account and carries its own new ref. */
  ghost predicate Submissions(l: Ledger, file: seq<Item>) {
    && (forall i :: 0 <= i < |file| ==>
          && file[i].plan.Submit? && HasAccount(l, file[i].plan.txn.account)
          && FindRef(l.rows, file[i].plan.txn.ref).None?)
    && (forall i, j :: 0 <= i < j < |file| ==> file[i].plan.txn.ref != file[j].plan.txn.ref)
  }

  function PlanEffect(p: Plan, account: string): int {
    match p
    case Settled(_) => 0
    case Submit(t) => if t.account == account then Signed(t.kind, t.points) else 0
  }

  function PlanEarned(p: Plan, account: string): nat {
    match p
    case Settled(_) => 0
    case Submit(t) => if t.account == account && t.kind == Earn then t.points else 0
  }

  /** The net points the file asks for on an account, and the points it would earn. */
  function FileNet(file: seq<Item>, account: string): int {
    if |file| == 0 then 0 else FileNet(Front(file), account) + PlanEffect(Last(file).plan, account)
  }

  function FileEarned(file: seq<Item>, account: string): int {
    if |file| == 0 then 0 else FileEarned(Front(file), account) + PlanEarned(Last(file).plan, account)
  }

  ghost predicate AllAccepted(entries: seq<AuditEntry>) {
    forall i :: 0 <= i < |entries| ==> entries[i].outcome == Accepted
  }

  lemma SubmissionsFront(l: Ledger, file: seq<Item>)
    requires |file| > 0 && Submissions(l, file)
    ensures Submissions(l, Front(file))
    ensures forall i :: 0 <= i < |file| - 1 ==>
              Front(file)[i].plan.Submit? && Front(file)[i].plan.txn.ref != Last(file).plan.txn.ref
  {
    assert Last(file) == file[|file| - 1];
    assert forall i :: 0 <= i < |Front(file)| ==> Front(file)[i] == file[i];
  }

  lemma {:induction false} RefStaysFree(l: Ledger, file: seq<Item>, ref: string)
    requires Valid(l) && FindRef(l.rows, ref).None?
    requires forall i :: 0 <= i < |file| && file[i].plan.Submit? ==> file[i].plan.txn.ref != ref
    ensures FindRef(RunFile(l, file).ledger.rows, ref).None?
  {
    if |file| > 0 {
      var before := RunFile(l, Front(file)).ledger;
      assert Last(file) == file[|file| - 1];
      assert forall i :: 0 <= i < |Front(file)| ==> Front(file)[i] == file[i];
      RefStaysFree(l, Front(file), ref);
      RunFacts(l, Front(file));
      RowStepFacts(before, Last(file).plan, Last(file).fault);
      if RowStep(before, Last(file).plan, Last(file).fault).1.outcome == Accepted {
        FrontOfAppend(before.rows, ToRow(Last(file).plan.txn, NextId(before.rows)));
      }
    }
  }

  /** No row of the file would take its account below zero, were all rows before it applied. */
  predicate Afloat(l: Ledger, file: seq<Item>) {
    |file| == 0 ||
    (Afloat(l, Front(file)) &&
     match Last(file).plan
     case Settled(_) => true
     case Submit(t) => Net(l.rows, t.account) + FileNet(file, t.account) >= 0)
  }

  lemma {:induction false} AfloatAt(l: Ledger, file: seq<Item>, k: nat, a: string)
    requires Solvent(l.rows) && Afloat(l, file) && k <= |file|
    ensures Net(l.rows, a) + FileNet(file[..k], a) >= 0
  {
    if |file| == 0 {
      SolventNow(l.rows, a);
    } else if k < |file| {
      AfloatAt(l, Front(file), k, a);
      assert Front(file)[..k] == file[..k];
    } else {
      AfloatAt(l, Front(file), k - 1, a);
      assert Front(file)[..k - 1] == Front(file) && file[..k] == file;
    }
  }

  lemma {:induction false} SunkSomewhere(l: Ledger, file: seq<Item>) returns (k: nat, a: string)
    requires !Afloat(l, file)
    ensures k <= |file| && Net(l.rows, a) + FileNet(file[..k], a) < 0
  {
    if Afloat(l, Front(file)) {
      k, a := |file|, Last(file).plan.txn.account;
      assert file[..k] == file;
    } else {
      k, a := SunkSomewhere(l, Front(file));
      assert Front(file)[..k] == file[..k];
    }
  }

  /** That is: every prefix of the file leaves every account at zero or above. */
  lemma AfloatIffEveryPrefix(l: Ledger, file: seq<Item>)
    requires Solvent(l.rows)
    ensures Afloat(l, file) <==>
              forall k: nat, a: string :: k <= |file| ==> Net(l.rows, a) + FileNet(file[..k], a) >= 0
  {
    if Afloat(l, file) {
      forall k: nat, a: string | k <= |file| ensures Net(l.rows, a) + FileNet(file[..k], a) >= 0 {
        AfloatAt(l, file, k, a);
      }
    } else {
      var k, a := SunkSomewhere(l, file);
    }
  }

  lemma AllAcceptedFront(entries: seq<AuditEntry>)
    requires |entries| > 0
    ensures AllAccepted(entries) <==> AllAccepted(Front(entries)) && Last(entries).outcome == Accepted
  {
    assert forall i :: 0 <= i < |Front(entries)| ==> Front(entries)[i] == entries[i];
    assert Last(entries) == entries[|entries| - 1];
  }

  /** A new row is accepted exactly when it keeps its account at zero or above. */
  lemma NewRow(l: Ledger, t: Transaction, a: string)
    requires Valid(l) && Usable(Submit(t)) && Fresh(l, t) && Earned(l.rows, t.account) <= MAX_INT64
    ensures var (after, e) := RowStep(l, Submit(t), NoFault);
            && (e.outcome == Accepted <==> Net(l.rows, t.account) + Signed(t.kind, t.points) >= 0)
            && (e.outcome == Accepted ==>
                  && Net(after.rows, a) == Net(l.rows, a) + PlanEffect(Submit(t), a)
                  && Earned(after.rows, a) == Earned(l.rows, a) + PlanEarned(Submit(t), a))
  {
    FaultIsAllOrNothing(l, t, NoFault);
    RecordOutcomes(l, t);
    SolventNow(l.rows, t.account);
    FrontOfAppend(l.rows, ToRow(t, NextId(l.rows)));
    if IsDeduction(t.kind) {
      GuardCannotOverflow(l, t);
    }
  }

  /** A file of new, usable rows whose accounts stay within 64 bits is accepted in full exactly when every prefix
      of it keeps every account at zero or above; each balance then moves by the file's net. */
  lemma {:induction false} FeasibleFile(l: Ledger, file: seq<Item>, a: string)
    requires Valid(l) && Calm(file) && Submissions(l, file)
    requires forall x :: Earned(l.rows, x) + FileEarned(file, x) <= MAX_INT64
    ensures var run := RunFile(l, file);
            && (AllAccepted(run.entries) <==> Afloat(l, file))
            && (AllAccepted(run.entries) ==>
                  && Net(run.ledger.rows, a) == Net(l.rows, a) + FileNet(file, a)
                  && Earned(run.ledger.rows, a) == Earned(l.rows, a) + FileEarned(file, a))
  {
    if |file| > 0 {
      var before, entries := RunFile(l, Front(file)), RunFile(l, file).entries;
      assert Last(file) == file[|file| - 1];
      var t := Last(file).plan.txn;
      assert forall x :: FileEarned(file, x) == FileEarned(Front(file), x) + PlanEarned(Last(file).plan, x);
      SubmissionsFront(l, file);
      FeasibleFile(l, Front(file), a);
      FeasibleFile(l, Front(file), t.account);
      FrontOfAppend(before.entries, Last(entries));
      AllAcceptedFront(entries);
      if AllAccepted(before.entries) {
        RunFacts(l, Front(file));
        RefStaysFree(l, Front(file), t.ref);
        NewRow(before.ledger, t, a);
      }
    }
  }
}
