/** The meaning of RecordTransaction and the invariant every committed ledger satisfies. */
module LedgerSpec {
  import opened Domain
  import opened Sql

  /** RecordTransaction run alone, without faults: the committed ledger and the answer. */
  function Record(l: Ledger, t: Transaction): (Ledger, Outcome) {
    if !HasAccount(l, t.account) then (l, Failed(NotFound))
    else match InsertTransaction(l, t)
      case ConstraintFailed => (l, Failed(Internal))
      case Ignored => (l, Stored(FromRow(FindRef(l.rows, t.ref).value), false))
      case Inserted(w) =>
        if IsDeduction(t.kind) && SqlSum(w.rows, t.account).None? then (l, Failed(Internal))
        else if IsDeduction(t.kind) && SqlSum(w.rows, t.account).value < 0 then (l, Failed(InsufficientBalance))
        else (w, Stored(FromRow(Last(w.rows)), true))
  }

  /** No account is below zero after any row, in id order. */
  predicate Solvent(rows: seq<Row>) {
    |rows| == 0 || (Solvent(Front(rows)) && Net(rows, Last(rows).account) >= 0)
  }

  ghost predicate DistinctIds(accounts: seq<Account>) {
    forall i, j :: 0 <= i < j < |accounts| ==> accounts[i].id != accounts[j].id
  }

  ghost predicate KeysHold(rows: seq<Row>) {
    forall i, j :: 0 <= i < j < |rows| ==> rows[i].id < rows[j].id && rows[i].ref != rows[j].ref
  }

  /** CHECKs and the foreign key. */
  ghost predicate RowsHold(l: Ledger) {
    forall i :: 0 <= i < |l.rows| ==> ChecksPass(l.rows[i].kind, l.rows[i].points) && HasAccount(l, l.rows[i].account)
  }

  ghost predicate RolesHold(accounts: seq<Account>) {
    forall i :: 0 <= i < |accounts| ==> accounts[i].role == "member" || accounts[i].role == "admin"
  }

  ghost predicate Valid(l: Ledger) {
    && DistinctIds(l.accounts)
    && RolesHold(l.accounts)
    && KeysHold(l.rows)
    && RowsHold(l)
    && Solvent(l.rows)
  }

  // Facts about the folds

  lemma FrontOfAppend<T>(s: seq<T>, x: T)
    ensures Front(s + [x]) == s && Last(s + [x]) == x
  {
  }

  lemma {:induction false} FindRefIsMember(rows: seq<Row>, ref: string)
    ensures FindRef(rows, ref).Some? ==> FindRef(rows, ref).value in rows && FindRef(rows, ref).value.ref == ref
    ensures FindRef(rows, ref).None? ==> forall r :: r in rows ==> r.ref != ref
  {
    if |rows| > 0 {
      FindRefIsMember(Front(rows), ref);
      assert rows == Front(rows) + [Last(rows)];
    }
  }

  lemma {:induction false} LookupIsMember(accounts: seq<Account>, id: string)
    ensures Lookup(accounts, id).Some? ==> Lookup(accounts, id).value in accounts && Lookup(accounts, id).value.id == id
    ensures Lookup(accounts, id).None? ==> forall a :: a in accounts ==> a.id != id
  {
    if |accounts| > 0 {
      LookupIsMember(Front(accounts), id);
      assert accounts == Front(accounts) + [Last(accounts)];
    }
  }

  /** What SUM returns, when it returns, is the balance. */
  lemma {:induction false} SqlSumIsNet(rows: seq<Row>, account: string)
    ensures SqlSum(rows, account).Some? ==> SqlSum(rows, account).value == Net(rows, account)
  {
    if |rows| > 0 {
      SqlSumIsNet(Front(rows), account);
    }
  }

  lemma {:induction false} SolventNow(rows: seq<Row>, account: string)
    requires Solvent(rows)
    ensures Net(rows, account) >= 0
  {
    if |rows| > 0 {
      SolventNow(Front(rows), account);
    }
  }

  lemma {:induction false} SolventPrefix(rows: seq<Row>, k: nat)
    requires Solvent(rows) && k <= |rows|
    ensures Solvent(rows[..k])
  {
    if k < |rows| {
      SolventPrefix(Front(rows), k);
      assert Front(rows)[..k] == rows[..k];
    } else {
      assert rows[..k] == rows;
    }
  }

  /** Solvency is exactly: every account is at zero or above after every prefix of the ledger. */
  lemma {:induction false} SolventIffEveryPrefix(rows: seq<Row>)
    ensures Solvent(rows) <==> forall k: nat, a: string :: k <= |rows| ==> Net(rows[..k], a) >= 0
  {
    if Solvent(rows) {
      forall k: nat, a: string | k <= |rows| ensures Net(rows[..k], a) >= 0 {
        SolventPrefix(rows, k);
        SolventNow(rows[..k], a);
      }
    } else {
      SolventIffEveryPrefix(Front(rows));
      if Solvent(Front(rows)) {
        assert rows[..|rows|] == rows;
        assert Net(rows[..|rows|], Last(rows).account) < 0;
      } else {
        var k: nat, a: string :| k <= |Front(rows)| && Net(Front(rows)[..k], a) < 0;
        assert Front(rows)[..k] == rows[..k];
        assert Net(rows[..k], a) < 0;
      }
    }
  }

  // The invariant

  lemma AppendKeepsValid(l: Ledger, t: Transaction)
    requires Valid(l) && InsertTransaction(l, t).Inserted?
    ensures var w := InsertTransaction(l, t).ledger;
            (IsDeduction(t.kind) ==> Net(w.rows, t.account) >= 0) ==> Valid(w)
  {
    var w := InsertTransaction(l, t).ledger;
    var row := ToRow(t, NextId(l.rows));
    FrontOfAppend(l.rows, row);
    FindRefIsMember(l.rows, t.ref);
    if t.kind == Earn {
      SolventNow(l.rows, t.account);
    }
  }

  /** Recording keeps every constraint and every balance at zero or above. */
  lemma RecordKeepsValid(l: Ledger, t: Transaction)
    requires Valid(l)
    ensures Valid(Record(l, t).0)
  {
    if InsertTransaction(l, t).Inserted? {
      AppendKeepsValid(l, t);
      SqlSumIsNet(InsertTransaction(l, t).ledger.rows, t.account);
    }
  }

  // When each answer is given

  predicate Fresh(l: Ledger, t: Transaction) {
    HasAccount(l, t.account) && ChecksPass(t.kind, t.points) && FindRef(l.rows, t.ref).None?
  }

  /** A deduction goes through when the balance can be computed and covers it. */
  predicate Covered(l: Ledger, t: Transaction) {
    IsDeduction(t.kind) ==> SqlSum(l.rows, t.account).Some? && Net(l.rows, t.account) >= t.points
  }

  /** The sum the guard computes, given the sum before the insert. */
  lemma GuardSum(l: Ledger, t: Transaction)
    requires Valid(l) && InsertTransaction(l, t).Inserted? && IsDeduction(t.kind)
    ensures var w := InsertTransaction(l, t).ledger;
            && Net(w.rows, t.account) == Net(l.rows, t.account) - t.points
            && SqlSum(w.rows, t.account) ==
               if SqlSum(l.rows, t.account).None? then None else Some(Net(l.rows, t.account) - t.points)
  {
    var row := ToRow(t, NextId(l.rows));
    FrontOfAppend(l.rows, row);
    SqlSumIsNet(l.rows, t.account);
    SolventNow(l.rows, t.account);
  }

  /** Exactly when each answer is given, and exactly what is stored. */
  lemma RecordOutcomes(l: Ledger, t: Transaction)
    requires Valid(l)
    ensures var (after, o) := Record(l, t);
            && (o == Failed(NotFound) <==> !HasAccount(l, t.account))
            && (o.Stored? && o.created <==> Fresh(l, t) && Covered(l, t))
            && (o == Failed(InsufficientBalance) <==>
                Fresh(l, t) && IsDeduction(t.kind) && SqlSum(l.rows, t.account).Some? && Net(l.rows, t.account) < t.points)
            && (o.Stored? && !o.created <==>
                HasAccount(l, t.account) && ChecksPass(t.kind, t.points) && FindRef(l.rows, t.ref).Some?)
            && (o.Stored? && !o.created ==> forall r :: r in l.rows && r.ref == t.ref ==> o.txn == FromRow(r))
            && (o.Stored? && o.created ==>
                && o.txn == t.(at := Canonical(t.at))
                && after == l.(rows := l.rows + [ToRow(t, NextId(l.rows))])
                && forall a :: Net(after.rows, a) == Net(l.rows, a) + if a == t.account then Signed(t.kind, t.points) else 0)
            && (!(o.Stored? && o.created) ==> after == l)
  {
    FindRefIsMember(l.rows, t.ref);
    if InsertTransaction(l, t).Inserted? {
      FrontOfAppend(l.rows, ToRow(t, NextId(l.rows)));
      if IsDeduction(t.kind) {
        GuardSum(l, t);
      }
    }
  }

  /** A ledger on which one account was opened and nothing has happened, for examples. */
  const OPENED: Ledger := Ledger([Account("ann", "Ann", None, "member", Time(0, 0))], [])

  // Faults

  /** The statement, if any, that fails or whose context is already cancelled. */
  datatype Fault = NoFault | AtBegin | AtExists | AtInsert | AtAffected | AtGuard | AtRollback | AtReadBack | AtCommit

  /** The answer when the statement named by `f` fails, should the call reach it. */
  function RecordWith(l: Ledger, t: Transaction, f: Fault): (Ledger, Outcome) {
    var refusal := (l, Failed(Internal));
    if f == AtBegin || f == AtExists then refusal
    else if !HasAccount(l, t.account) then (l, Failed(NotFound))
    else if f == AtInsert || f == AtAffected then refusal
    else if !Fresh(l, t) || !IsDeduction(t.kind) then
      if f == AtReadBack || f == AtCommit then refusal else Record(l, t)
    else if f == AtGuard then refusal
    else if Record(l, t).1 == Failed(InsufficientBalance) then
      if f == AtRollback then refusal else Record(l, t)
    else if f == AtReadBack || f == AtCommit then refusal
    else Record(l, t)
  }

  /** A fault anywhere leaves either the whole effect and its answer, or nothing and an internal error. */
  lemma FaultIsAllOrNothing(l: Ledger, t: Transaction, f: Fault)
    ensures RecordWith(l, t, f) == Record(l, t) || RecordWith(l, t, f) == (l, Failed(Internal))
    ensures RecordWith(l, t, NoFault) == Record(l, t)
  {
  }

  /** Whether the call reaches the statement that fails. */
  predicate Bites(l: Ledger, t: Transaction, f: Fault) {
    match f
    case NoFault => false
    case AtBegin => true
    case AtExists => true
    case AtInsert => HasAccount(l, t.account)
    case AtAffected => HasAccount(l, t.account)
    case AtGuard => Fresh(l, t) && IsDeduction(t.kind)
    case AtRollback => Record(l, t).1 == Failed(InsufficientBalance)
    case AtReadBack => Record(l, t).1.Stored?
    case AtCommit => Record(l, t).1.Stored?
  }

  /** A fault that the call reaches ends it without effect and in an internal error; any other goes unnoticed. */
  lemma FaultBites(l: Ledger, t: Transaction, f: Fault)
    ensures RecordWith(l, t, f) == if Bites(l, t, f) then (l, Failed(Internal)) else Record(l, t)
  {
    if Fresh(l, t) {
      assert InsertTransaction(l, t).Inserted?;
    } else if HasAccount(l, t.account) {
      assert Record(l, t).1.Stored? || Record(l, t) == (l, Failed(Internal));
    }
  }

  // History

  /** Rows and accounts are only ever appended. */
  ghost predicate Extends(l: Ledger, later: Ledger) {
    l.accounts <= later.accounts && l.rows <= later.rows
  }

  lemma {:induction false} FindRefOfRow(rows: seq<Row>, k: nat)
    requires KeysHold(rows) && k < |rows|
    ensures FindRef(rows, rows[k].ref) == Some(rows[k])
  {
    if k < |rows| - 1 {
      assert Front(rows)[k] == rows[k];
      FindRefOfRow(Front(rows), k);
    }
  }

  lemma FindRefLater(l: Ledger, later: Ledger, ref: string)
    requires Extends(l, later) && Valid(later) && FindRef(l.rows, ref).Some?
    ensures FindRef(later.rows, ref) == FindRef(l.rows, ref)
  {
    FindRefIsMember(l.rows, ref);
    var k :| 0 <= k < |l.rows| && l.rows[k] == FindRef(l.rows, ref).value;
    FindRefOfRow(later.rows, k);
  }
}
