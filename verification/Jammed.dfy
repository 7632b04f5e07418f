/** An earn is never checked. What one earn too many does to an account, and that nothing undoes it. */
module Jammed {
  import opened Domain
  import opened Sql
  import opened LedgerSpec
  import opened Listings
  import opened Operations
  import opened Overflow
  import opened Batch
  import opened Machine
  import opened Serializability
  import opened Safety
  import opened Linearizability

  /** The account's balance can no longer be computed. */
  predicate IsJammed(l: Ledger, account: string) {
    HasAccount(l, account) && SqlSum(l.rows, account).None?
  }

  /** A new earn is always stored, and jams its account exactly when the balance it makes exceeds 64 bits. */
  lemma EarnJams(l: Ledger, t: Transaction)
    requires Valid(l) && Fresh(l, t) && t.kind == Earn && SqlSum(l.rows, t.account).Some?
    ensures var (after, o) := Record(l, t);
            && o == Stored(t.(at := Canonical(t.at)), true) && Valid(after)
            && Net(after.rows, t.account) == Net(l.rows, t.account) + t.points
            && (IsJammed(after, t.account) <==> Net(l.rows, t.account) + t.points > MAX_INT64)
  {
    RecordOutcomes(l, t);
    RecordKeepsValid(l, t);
    FrontOfAppend(l.rows, ToRow(t, NextId(l.rows)));
    SqlSumIsNet(l.rows, t.account);
    SolventNow(l.rows, t.account);
  }

  /** What an operation answers on a ledger with a jammed account: no balance, no overview, no new deduction. */
  predicate SaysJammed(op: Op, resp: Response, account: string) {
    match op
    case BalanceOp(a) => a == account ==> resp == Refused(Internal)
    case OverviewOp => resp == Refused(Internal)
    case RecordOp(t) =>
      t.account == account && IsDeduction(t.kind) ==>
        resp == Recorded(Failed(Internal)) || (resp.Recorded? && resp.outcome.Stored? && !resp.outcome.created)
    case _ => true
  }

  lemma JammedAnswers(l: Ledger, op: Op, account: string)
    requires Valid(l) && IsJammed(l, account)
    ensures SaysJammed(op, Exec(l, op).1, account)
    ensures op.RecordOp? && op.txn.account == account && IsDeduction(op.txn.kind) && Fresh(l, op.txn) ==>
              Exec(l, op) == (l, Recorded(Failed(Internal)))
  {
    match op
    case OverviewOp =>
      LookupIsMember(l.accounts, account);
      OverviewConserves(l);
    case RecordOp(t) => RecordOutcomes(l, t);
    case _ =>
  }

  lemma JammedLater(l: Ledger, later: Ledger, account: string)
    requires IsJammed(l, account) && Extends(l, later) && Valid(later)
    ensures IsJammed(later, account)
  {
    OverflowPersists(l.rows, later.rows, account);
    LookupIsMember(l.accounts, account);
    LookupIsMember(later.accounts, account);
  }

  /** An account that is jammed once is jammed in every continuation of the schedule, and every answer given from
      then on says so. */
  lemma JammedForEver(s: System, before: seq<Event>, during: seq<Event>, account: string)
    requires Initial(s) && Valid(s.committed) && Legal(s, before + during) && Legal(s, before)
    requires IsJammed(After(s, before).committed, account)
    ensures IsJammed(After(s, before + during).committed, account)
    ensures var log := After(s, before + during).log;
            forall k :: |After(s, before).log| <= k < |log| ==> SaysJammed(log[k].op, log[k].resp, account)
  {
    var l, was, now := s.committed, After(s, before), After(s, before + during);
    HistoryGrows(s, before, during);
    Serializable(s, before);
    Serializable(s, before + during);
    assert now.log[..|now.log|] == now.log;
    forall k | |was.log| <= k <= |now.log|
      ensures IsJammed(Replay(l, now.log[..k]), account) && Valid(Replay(l, now.log[..k]))
    {
      ReplayKeepsValid(l, now.log[..k]);
      ReplayExtends(l, now.log[..k], |was.log|);
      assert now.log[..k][..|was.log|] == was.log;
      JammedLater(was.committed, Replay(l, now.log[..k]), account);
    }
    forall k | |was.log| <= k < |now.log| ensures SaysJammed(now.log[k].op, now.log[k].resp, account) {
      FaithfulAt(l, now.log, k);
      JammedAnswers(Replay(l, now.log[..k]), now.log[k].op, account);
    }
  }

  // An account that gets jammed

  lemma ServiceEarn(l: Ledger, t: Transaction)
    requires InputOk(t) && t.kind == Earn
    ensures RecordEarn(l, t, NoFault) == Record(l, t)
  {
    FaultIsAllOrNothing(l, t, NoFault);
    assert t.(kind := Earn) == t;
  }

  lemma SpendIsJammed(l: Ledger, spend: Transaction)
    requires Valid(l) && InputOk(spend) && IsJammed(l, spend.account) && FindRef(l.rows, spend.ref).None?
    ensures RecordSpend(l, spend, NoFault) == (l, Failed(Internal))
    ensures Exec(l, BalanceOp(spend.account)).1 == Refused(Internal) && ListAccounts(l) == None
  {
    FaultIsAllOrNothing(l, spend.(kind := Spend), NoFault);
    JammedAnswers(l, RecordOp(spend.(kind := Spend)), spend.account);
    JammedAnswers(l, OverviewOp, spend.account);
  }

  /** An earn leaves every other ref as new as it was. */
  lemma EarnUsesOneRef(l: Ledger, t: Transaction, ref: string)
    requires Fresh(l, t) && t.kind == Earn && ref != t.ref
    ensures FindRef(Record(l, t).0.rows, ref) == FindRef(l.rows, ref)
    ensures forall id :: HasAccount(Record(l, t).0, id) == HasAccount(l, id)
  {
    FrontOfAppend(l.rows, ToRow(t, NextId(l.rows)));
  }

  /** Two earns of one account under new refs, the second one too many: both are accepted, and afterwards the
      account's points cannot be read, listed or spent. */
  lemma EarnsJam(l: Ledger, first: Transaction, second: Transaction, spend: Transaction)
    requires Valid(l) && Fresh(l, first) && Fresh(l, second) && first.kind == second.kind == Earn
    requires InputOk(first) && InputOk(second) && InputOk(spend) && FindRef(l.rows, spend.ref).None?
    requires first.account == second.account == spend.account
    requires first.ref != second.ref && spend.ref != first.ref && spend.ref != second.ref
    requires SqlSum(l.rows, spend.account).Some?
    requires Net(l.rows, spend.account) + first.points <= MAX_INT64
    requires Net(l.rows, spend.account) + first.points + second.points > MAX_INT64
    ensures var (once, o) := RecordEarn(l, first, NoFault);
            var (twice, p) := RecordEarn(once, second, NoFault);
            && o.Stored? && o.created && p.Stored? && p.created && Valid(twice)
            && Net(twice.rows, spend.account) == Net(l.rows, spend.account) + first.points + second.points
            && IsJammed(twice, spend.account)
            && RecordSpend(twice, spend, NoFault) == (twice, Failed(Internal))
            && Exec(twice, BalanceOp(spend.account)).1 == Refused(Internal)
            && ListAccounts(twice) == None
  {
    var once := Record(l, first).0;
    ServiceEarn(l, first);
    EarnJams(l, first);
    EarnUsesOneRef(l, first, second.ref);
    EarnUsesOneRef(l, first, spend.ref);
    ServiceEarn(once, second);
    EarnJams(once, second);
    EarnUsesOneRef(once, second, spend.ref);
    SpendIsJammed(Record(once, second).0, spend);
  }

  /** Such earns exist: 2^63-1 points and then one more, on an account just opened. */
  lemma TwoEarnsJam(first: Transaction, second: Transaction, spend: Transaction)
    requires first == Transaction("r1", "ann", Earn, MAX_INT64, "", Time(0, 0))
    requires second == Transaction("r2", "ann", Earn, 1, "", Time(0, 0))
    requires spend == Transaction("r3", "ann", Spend, 1, "", Time(0, 0))
    ensures Valid(OPENED)
    ensures var (once, o) := RecordEarn(OPENED, first, NoFault);
            var (twice, p) := RecordEarn(once, second, NoFault);
            && o.Stored? && o.created && p.Stored? && p.created && Valid(twice)
            && Net(twice.rows, "ann") == MAX_INT64 + 1 && SqlSum(twice.rows, "ann") == None
            && RecordSpend(twice, spend, NoFault) == (twice, Failed(Internal))
            && Exec(twice, BalanceOp("ann")).1 == Refused(Internal)
            && ListAccounts(twice) == None
  {
    assert HasAccount(OPENED, "ann");
    EarnsJam(OPENED, first, second, spend);
  }
}
