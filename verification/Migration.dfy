/** The migration that introduced redeem: transactions is rebuilt, upwards and back. */
module Migration {
  import opened Domain
  import opened Sql
  import opened LedgerSpec

  /** A row of the narrow table: no reward, and a CHECK that knows earn and spend only. */
  datatype OldRow = OldRow(id: nat, ref: string, account: string, kind: Kind, points: Int64, at: Time)

  predicate OldChecksPass(kind: Kind, points: Int64) {
    (kind == Earn || kind == Spend) && points > 0
  }

  function Widen(r: OldRow): Row {
    Row(r.id, r.ref, r.account, r.kind, r.points, None, r.at)
  }

  function Narrow(r: Row): OldRow {
    OldRow(r.id, r.ref, r.account, r.kind, r.points, r.at)
  }

  /** SELECT id, ref, account_id, kind, points, NULL, ... FROM transactions. */
  function WidenAll(rows: seq<OldRow>): seq<Row> {
    if |rows| == 0 then [] else WidenAll(Front(rows)) + [Widen(Last(rows))]
  }

  /** SELECT ... FROM transactions WHERE kind IN ('earn','spend'). */
  function NarrowAll(rows: seq<Row>): seq<OldRow> {
    if |rows| == 0 then []
    else if Last(rows).kind == Earn || Last(rows).kind == Spend then NarrowAll(Front(rows)) + [Narrow(Last(rows))]
    else NarrowAll(Front(rows))
  }

  /** The narrow table's own constraints, and solvency, with balances taken on the widened rows. */
  ghost predicate OldValid(accounts: seq<Account>, rows: seq<OldRow>) {
    && Valid(Ledger(accounts, WidenAll(rows)))
    && forall i :: 0 <= i < |rows| ==> OldChecksPass(rows[i].kind, rows[i].points)
  }

  // Up, then down

  lemma NarrowStep(rows: seq<Row>)
    requires |rows| > 0
    ensures WidenAll(NarrowAll(rows)) ==
            WidenAll(NarrowAll(Front(rows))) +
            if Last(rows).kind == Earn || Last(rows).kind == Spend then [Widen(Narrow(Last(rows)))] else []
  {
    FrontOfAppend(NarrowAll(Front(rows)), Narrow(Last(rows)));
  }

  lemma {:induction false} WidenPointwise(rows: seq<OldRow>)
    ensures |WidenAll(rows)| == |rows| && forall i :: 0 <= i < |rows| ==> WidenAll(rows)[i] == Widen(rows[i])
  {
    if |rows| > 0 {
      WidenPointwise(Front(rows));
    }
  }

  /** Each account's balance in the narrow table: earned less spent. */
  function OldNet(rows: seq<OldRow>, account: string): int {
    if |rows| == 0 then 0
    else OldNet(Front(rows), account) +
         if Last(rows).account != account then 0
         else if Last(rows).kind == Earn then Last(rows).points
         else if Last(rows).kind == Spend then 0 - Last(rows).points
         else 0
  }

  /** Up keeps every balance. */
  lemma {:induction false} UpKeepsBalances(rows: seq<OldRow>, account: string)
    requires forall i :: 0 <= i < |rows| ==> OldChecksPass(rows[i].kind, rows[i].points)
    ensures Net(WidenAll(rows), account) == OldNet(rows, account)
  {
    if |rows| > 0 {
      UpKeepsBalances(Front(rows), account);
      FrontOfAppend(WidenAll(Front(rows)), Widen(Last(rows)));
    }
  }

  /** ORDER BY id DESC over one account's rows of the narrow table. */
  function OldListing(rows: seq<OldRow>, account: string): seq<OldRow> {
    if |rows| == 0 then []
    else if Last(rows).account == account then [Last(rows)] + OldListing(Front(rows), account)
    else OldListing(Front(rows), account)
  }

  /** Up keeps every listing: the same entries in the same order, none of them with a reward. */
  lemma {:induction false} UpKeepsListings(rows: seq<OldRow>, account: string)
    ensures var was, now := OldListing(rows, account), ListByAccount(WidenAll(rows), account);
            |now| == |was| && forall k :: 0 <= k < |was| ==> now[k] == Widen(was[k])
  {
    if |rows| > 0 {
      UpKeepsListings(Front(rows), account);
      FrontOfAppend(WidenAll(Front(rows)), Widen(Last(rows)));
    }
  }

  /** Down undoes up. */
  lemma {:induction false} DownAfterUp(rows: seq<OldRow>)
    requires forall i :: 0 <= i < |rows| ==> OldChecksPass(rows[i].kind, rows[i].points)
    ensures NarrowAll(WidenAll(rows)) == rows
  {
    if |rows| > 0 {
      DownAfterUp(Front(rows));
      FrontOfAppend(WidenAll(Front(rows)), Widen(Last(rows)));
      assert rows == Front(rows) + [Last(rows)];
    }
  }

  predicate NeverRedeemed(rows: seq<Row>) {
    |rows| == 0 || (NeverRedeemed(Front(rows)) && Last(rows).kind != Redeem)
  }

  /** Up undoes down exactly when nothing was ever redeemed, provided that only redeem rows carry a reward. */
  lemma {:induction false} UpAfterDown(rows: seq<Row>)
    requires forall r :: r in rows ==> ChecksPass(r.kind, r.points) && (r.kind != Redeem ==> r.reward == None)
    ensures WidenAll(NarrowAll(rows)) == rows <==> NeverRedeemed(rows)
    ensures |NarrowAll(rows)| <= |rows| && (!NeverRedeemed(rows) ==> |NarrowAll(rows)| < |rows|)
  {
    WidenPointwise(NarrowAll(rows));
    if |rows| > 0 {
      var front, last := Front(rows), Last(rows);
      assert last in rows && rows == front + [last];
      UpAfterDown(front);
      NarrowStep(rows);
    }
  }

  // Down on a ledger with redemptions

  function Redeemed(rows: seq<Row>, account: string): nat {
    if |rows| == 0 then 0
    else Redeemed(Front(rows), account) +
         if Last(rows).account == account && Last(rows).kind == Redeem && Last(rows).points > 0 then Last(rows).points else 0
  }

  /** Each account gets back exactly what it had redeemed. */
  lemma {:induction false} DownRefunds(rows: seq<Row>, account: string)
    requires forall r :: r in rows ==> ChecksPass(r.kind, r.points)
    ensures OldNet(NarrowAll(rows), account) == Net(rows, account) + Redeemed(rows, account)
    ensures Net(WidenAll(NarrowAll(rows)), account) == Net(rows, account) + Redeemed(rows, account)
  {
    if |rows| > 0 {
      DownRefunds(Front(rows), account);
      NarrowStep(rows);
      assert Last(rows) in rows;
      FrontOfAppend(NarrowAll(Front(rows)), Narrow(Last(rows)));
      FrontOfAppend(WidenAll(NarrowAll(Front(rows))), Widen(Narrow(Last(rows))));
    }
  }

  lemma {:induction false} DownStaysSolvent(rows: seq<Row>)
    requires Solvent(rows) && forall r :: r in rows ==> ChecksPass(r.kind, r.points)
    ensures Solvent(WidenAll(NarrowAll(rows)))
  {
    if |rows| > 0 {
      DownStaysSolvent(Front(rows));
      NarrowStep(rows);
      FrontOfAppend(WidenAll(NarrowAll(Front(rows))), Widen(Narrow(Last(rows))));
      DownRefunds(rows, Last(rows).account);
    }
  }

  /** The row survives from `rows`: all but the reward is as it was there, and it was no redemption. */
  ghost predicate Survives(kept: Row, rows: seq<Row>) {
    exists r :: r in rows && kept == r.(reward := None) && r.kind != Redeem
  }

  lemma SurvivesLonger(kept: Row, rows: seq<Row>)
    requires KeysHold(rows) && |rows| > 0 && Survives(kept, Front(rows))
    ensures Survives(kept, rows) && kept.id < Last(rows).id && kept.ref != Last(rows).ref
  {
    var r :| r in Front(rows) && kept == r.(reward := None) && r.kind != Redeem;
    assert r in rows;
  }

  lemma KeysHoldMore(kept: seq<Row>, r: Row)
    requires KeysHold(kept) && forall k :: 0 <= k < |kept| ==> kept[k].id < r.id && kept[k].ref != r.ref
    ensures KeysHold(kept + [r])
  {
  }

  /** What survives comes, in order, from the rows that were there. */
  lemma {:induction false} DownSelects(rows: seq<Row>)
    requires KeysHold(rows)
    ensures var kept := WidenAll(NarrowAll(rows));
            KeysHold(kept) && forall k :: 0 <= k < |kept| ==> Survives(kept[k], rows)
  {
    if |rows| > 0 {
      var kept, last := WidenAll(NarrowAll(Front(rows))), Widen(Narrow(Last(rows)));
      DownSelects(Front(rows));
      forall k | 0 <= k < |kept|
        ensures kept[k].id < last.id && kept[k].ref != last.ref && Survives(kept[k], rows)
      {
        SurvivesLonger(kept[k], rows);
      }
      KeysHoldMore(kept, last);
      assert Last(rows) in rows;
      NarrowStep(rows);
    }
  }

  lemma {:induction false} NarrowChecks(rows: seq<Row>)
    requires forall r :: r in rows ==> ChecksPass(r.kind, r.points)
    ensures forall i :: 0 <= i < |NarrowAll(rows)| ==> OldChecksPass(NarrowAll(rows)[i].kind, NarrowAll(rows)[i].points)
  {
    if |rows| > 0 {
      NarrowChecks(Front(rows));
      assert Last(rows) in rows;
    }
  }

  /** Rolling back keeps every constraint and every balance at zero or above. */
  lemma DownKeepsValid(l: Ledger)
    requires Valid(l)
    ensures OldValid(l.accounts, NarrowAll(l.rows))
  {
    var kept := WidenAll(NarrowAll(l.rows));
    forall r | r in l.rows ensures ChecksPass(r.kind, r.points) && HasAccount(l, r.account) {
    }
    DownSelects(l.rows);
    DownStaysSolvent(l.rows);
    NarrowChecks(l.rows);
    forall k | 0 <= k < |kept| ensures ChecksPass(kept[k].kind, kept[k].points) && HasAccount(l, kept[k].account) {
      assert Survives(kept[k], l.rows);
    }
  }

  // The migration itself

  /** The database around the rebuild: one of the two tables exists before and after, both in between. */
  class Database {
    var accounts: seq<Account>
    var narrow: Option<seq<OldRow>>
    var wide: Option<seq<Row>>

    constructor (accounts: seq<Account>)
      ensures this.accounts == accounts && narrow == Some([]) && wide == None
    {
      this.accounts, narrow, wide := accounts, Some([]), None;
    }

    /** Create the wide table, copy row by row under its constraints, drop the narrow one:
        no copy is refused, and every row keeps all it had. */
    method Up() returns (ok: bool)
      requires narrow.Some? && wide.None? && OldValid(accounts, narrow.value)
      modifies this`narrow, this`wide
      ensures ok && narrow.None? && wide == Some(WidenAll(old(narrow.value)))
      ensures Valid(Ledger(accounts, wide.value))
    {
      var rows := narrow.value;
      WidenPointwise(rows);
      var copy: seq<Row> := [];
      for k := 0 to |rows|
        invariant copy == WidenAll(rows[..k])
      {
        var r := Widen(rows[k]);
        assert Front(rows[..k + 1]) == rows[..k];
        WidenPointwise(rows[..k]);
        Admissible(Ledger(accounts, WidenAll(rows)), copy, k);
        if !Admits(accounts, copy, r) {
          return false;
        }
        copy := copy + [r];
      }
      assert rows[..|rows|] == rows;
      narrow, wide := None, Some(copy);
      ok := true;
    }

    /** Create the narrow table, copy the earn and spend rows, drop the wide one: again no copy is refused. */
    method Down() returns (ok: bool)
      requires wide.Some? && narrow.None? && Valid(Ledger(accounts, wide.value))
      modifies this`narrow, this`wide
      ensures ok && wide.None? && narrow == Some(NarrowAll(old(wide.value)))
      ensures OldValid(accounts, narrow.value)
    {
      var rows := wide.value;
      DownKeepsValid(Ledger(accounts, rows));
      var copy: seq<OldRow> := [];
      for k := 0 to |rows|
        invariant copy == NarrowAll(rows[..k])
      {
        assert Front(rows[..k + 1]) == rows[..k];
        if rows[k].kind == Earn || rows[k].kind == Spend {
          AdmissibleNarrow(Ledger(accounts, rows), k);
          if !AdmitsNarrow(accounts, copy, Narrow(rows[k])) {
            return false;
          }
          copy := copy + [Narrow(rows[k])];
        }
      }
      assert rows[..|rows|] == rows;
      wide, narrow := None, Some(copy);
      ok := true;
    }
  }

  /** The wide table takes the row: keys free, CHECKs and foreign key satisfied. */
  predicate Admits(accounts: seq<Account>, table: seq<Row>, r: Row) {
    && (forall i :: 0 <= i < |table| ==> table[i].id != r.id && table[i].ref != r.ref)
    && ChecksPass(r.kind, r.points) && Lookup(accounts, r.account).Some?
  }

  predicate AdmitsNarrow(accounts: seq<Account>, table: seq<OldRow>, r: OldRow) {
    && (forall i :: 0 <= i < |table| ==> table[i].id != r.id && table[i].ref != r.ref)
    && OldChecksPass(r.kind, r.points) && Lookup(accounts, r.account).Some?
  }

  lemma Admissible(l: Ledger, copy: seq<Row>, k: nat)
    requires Valid(l) && k < |l.rows| && |copy| == k && forall i :: 0 <= i < k ==> copy[i] == l.rows[i]
    ensures Admits(l.accounts, copy, l.rows[k])
  {
    assert HasAccount(l, l.rows[k].account);
  }

  lemma AdmissibleNarrow(l: Ledger, k: nat)
    requires Valid(l) && k < |l.rows| && (l.rows[k].kind == Earn || l.rows[k].kind == Spend)
    ensures AdmitsNarrow(l.accounts, NarrowAll(l.rows[..k]), Narrow(l.rows[k]))
  {
    var table := NarrowAll(l.rows[..k]);
    assert HasAccount(l, l.rows[k].account);
    WidenPointwise(table);
    DownSelects(l.rows[..k]);
    forall i | 0 <= i < |table| ensures table[i].id != l.rows[k].id && table[i].ref != l.rows[k].ref {
      assert WidenAll(table)[i] == Widen(table[i]);
      assert Survives(WidenAll(table)[i], l.rows[..k]);
    }
  }
}
