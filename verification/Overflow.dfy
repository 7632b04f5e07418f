/** When the 64-bit SUM behind a balance can overflow. */
module Overflow {
  import opened Domain
  import opened Sql
  import opened LedgerSpec

  /** SUM over values in the order in which they are visited. */
  function SumInOrder(values: seq<int>): Option<int> {
    if |values| == 0 then Some(0)
    else match SumInOrder(Front(values))
      case None => None
      case Some(s) =>
        if MIN_INT64 <= s + Last(values) <= MAX_INT64 then Some(s + Last(values)) else None
  }

  /** The account's signed points in id order. */
  function ValuesOf(rows: seq<Row>, account: string): seq<int> {
    if |rows| == 0 then []
    else if Last(rows).account == account then ValuesOf(Front(rows), account) + [Effect(Last(rows), account)]
    else ValuesOf(Front(rows), account)
  }

  function Earned(rows: seq<Row>, account: string): int {
    if |rows| == 0 then 0
    else Earned(Front(rows), account) +
         if Last(rows).account == account && Last(rows).kind == Earn then Last(rows).points else 0
  }

  function Plus(values: seq<int>): int {
    if |values| == 0 then 0 else Plus(Front(values)) + if Last(values) > 0 then Last(values) else 0
  }

  function Minus(values: seq<int>): int {
    if |values| == 0 then 0 else Minus(Front(values)) + if Last(values) < 0 then -Last(values) else 0
  }

  lemma OneMoreValue(values: seq<int>, v: int)
    ensures Plus(values + [v]) == Plus(values) + (if v > 0 then v else 0)
    ensures Minus(values + [v]) == Minus(values) + (if v < 0 then -v else 0)
    ensures SumInOrder(values + [v]) ==
            if SumInOrder(values).None? || !(MIN_INT64 <= SumInOrder(values).value + v <= MAX_INT64) then None
            else Some(SumInOrder(values).value + v)
  {
    FrontOfAppend(values, v);
  }

  lemma {:induction false} ValuesSum(rows: seq<Row>, account: string)
    requires forall r :: r in rows ==> ChecksPass(r.kind, r.points)
    ensures SqlSum(rows, account) == SumInOrder(ValuesOf(rows, account))
    ensures Net(rows, account) == Plus(ValuesOf(rows, account)) - Minus(ValuesOf(rows, account))
    ensures Plus(ValuesOf(rows, account)) == Earned(rows, account)
  {
    if |rows| > 0 {
      var values, last := ValuesOf(Front(rows), account), Last(rows);
      assert last in rows && last.points > 0 && !last.kind.Other?;
      ValuesSum(Front(rows), account);
      SumInRange(values);
      OneMoreValue(values, Effect(last, account));
    }
  }

  lemma {:induction false} SumInRange(values: seq<int>)
    ensures SumInOrder(values).Some? ==>
              SumInOrder(values).value == Plus(values) - Minus(values) && MIN_INT64 <= SumInOrder(values).value <= MAX_INT64
    ensures Plus(values) >= 0 && Minus(values) >= 0
  {
    if |values| > 0 {
      SumInRange(Front(values));
    }
  }

  // Visiting in any order

  lemma {:induction false} SplitSums(a: seq<int>, b: seq<int>)
    ensures Plus(a + b) == Plus(a) + Plus(b) && Minus(a + b) == Minus(a) + Minus(b)
  {
    if |b| > 0 {
      SplitSums(a, Front(b));
      assert Front(a + b) == a + Front(b);
    } else {
      assert a + b == a;
    }
  }

  /** `order` without one occurrence of x. */
  lemma TakeOne(order: seq<int>, x: int) returns (rest: seq<int>)
    requires x in order
    ensures multiset(order) == multiset(rest) + multiset{x}
    ensures Plus(order) == Plus(rest + [x]) && Minus(order) == Minus(rest + [x])
  {
    var k :| 0 <= k < |order| && order[k] == x;
    var before, behind := order[..k], order[k + 1..];
    rest := before + behind;
    assert order == before + [x] + behind;
    SplitSums(before + [x], behind);
    SplitSums(before, [x]);
    SplitSums(before, behind);
    SplitSums(rest, [x]);
  }

  lemma {:induction false} OrderIrrelevant(values: seq<int>, order: seq<int>)
    requires multiset(values) == multiset(order)
    ensures Plus(values) == Plus(order) && Minus(values) == Minus(order)
  {
    if |values| == 0 {
      assert |multiset(order)| == 0;
    } else {
      var x := Last(values);
      assert values == Front(values) + [x];
      assert multiset(values) == multiset(Front(values)) + multiset{x};
      assert x in multiset(order);
      var rest := TakeOne(order, x);
      assert multiset(Front(values)) == multiset(values) - multiset{x} == multiset(rest);
      OrderIrrelevant(Front(values), rest);
      OneMoreValue(Front(values), x);
      OneMoreValue(rest, x);
    }
  }

  lemma {:induction false} BoundedSum(values: seq<int>)
    requires Plus(values) <= MAX_INT64 && Minus(values) <= -MIN_INT64
    ensures SumInOrder(values).Some?
  {
    if |values| > 0 {
      SumInRange(Front(values));
      BoundedSum(Front(values));
    }
  }

  /** The positive values, and the others, each in their order. */
  function Gains(values: seq<int>): seq<int> {
    if |values| == 0 then []
    else if Last(values) > 0 then Gains(Front(values)) + [Last(values)]
    else Gains(Front(values))
  }

  function Others(values: seq<int>): seq<int> {
    if |values| == 0 then []
    else if Last(values) > 0 then Others(Front(values))
    else Others(Front(values)) + [Last(values)]
  }

  lemma Reordered(a: seq<int>, b: seq<int>, whole: seq<int>, v: int)
    requires multiset(a + b) == multiset(whole)
    ensures multiset(a + [v] + b) == multiset(whole + [v]) == multiset(a + (b + [v]))
  {
    assert multiset(a + [v] + b) == multiset(a + b) + multiset{v};
    assert a + (b + [v]) == a + b + [v];
  }

  /** Visiting the positive values first is one of the visit orders. */
  lemma {:induction false} GainsFirst(values: seq<int>)
    ensures multiset(Gains(values) + Others(values)) == multiset(values)
  {
    if |values| > 0 {
      GainsFirst(Front(values));
      assert values == Front(values) + [Last(values)];
      Reordered(Gains(Front(values)), Others(Front(values)), Front(values), Last(values));
    }
  }

  lemma {:induction false} GainsAddUp(values: seq<int>)
    ensures Plus(Gains(values)) == Plus(values) && Minus(Gains(values)) == 0
  {
    if |values| > 0 {
      GainsAddUp(Front(values));
      OneMoreValue(Gains(Front(values)), Last(values));
    }
  }

  lemma {:induction false} OverflowStays(values: seq<int>, more: seq<int>)
    requires SumInOrder(values).None?
    ensures SumInOrder(values + more).None?
  {
    if |more| > 0 {
      OverflowStays(values, Front(more));
      assert Front(values + more) == values + Front(more);
    } else {
      assert values + more == values;
    }
  }

  /** The sum is safe in every visit order exactly when the account's earned total fits in 64 bits;
      it is then the balance. */
  lemma AnyOrderIsSafe(l: Ledger, account: string)
    requires Valid(l)
    ensures (forall order: seq<int> :: multiset(order) == multiset(ValuesOf(l.rows, account)) ==>
               SumInOrder(order) == Some(Net(l.rows, account)))
            <==> Earned(l.rows, account) <= MAX_INT64
  {
    var values := ValuesOf(l.rows, account);
    ValuesSum(l.rows, account);
    SolventNow(l.rows, account);
    if Earned(l.rows, account) <= MAX_INT64 {
      forall order: seq<int> | multiset(order) == multiset(values)
        ensures SumInOrder(order) == Some(Net(l.rows, account))
      {
        OrderIrrelevant(values, order);
        BoundedSum(order);
        SumInRange(order);
      }
    } else {
      GainsFirst(values);
      GainsAddUp(values);
      SumInRange(Gains(values));
      OverflowStays(Gains(values), Others(values));
      assert SumInOrder(Gains(values) + Others(values)) != Some(Net(l.rows, account));
    }
  }

  // Visiting in id order

  /** In id order the sum fails exactly when some earlier balance of the account exceeded 64 bits. */
  lemma {:induction false} PeakDecides(rows: seq<Row>, account: string)
    requires Solvent(rows)
    ensures SqlSum(rows, account).Some? <==> forall k: nat :: k <= |rows| ==> Net(rows[..k], account) <= MAX_INT64
  {
    assert rows[..|rows|] == rows;
    SolventNow(rows, account);
    if |rows| > 0 {
      PeakDecides(Front(rows), account);
      SqlSumIsNet(Front(rows), account);
      assert forall k: nat :: k <= |Front(rows)| ==> Front(rows)[..k] == rows[..k];
      if SqlSum(Front(rows), account).None? {
        var k: nat :| k <= |Front(rows)| && Net(Front(rows)[..k], account) > MAX_INT64;
        assert Net(rows[..k], account) > MAX_INT64;
      }
    }
  }

  /** Once it fails it fails for ever: no row appended later brings the balance back. */
  lemma {:induction false} OverflowPersists(rows: seq<Row>, later: seq<Row>, account: string)
    requires rows <= later && SqlSum(rows, account).None?
    ensures SqlSum(later, account).None?
  {
    if |rows| < |later| {
      assert rows <= Front(later);
      OverflowPersists(rows, Front(later), account);
    } else {
      assert rows == later;
    }
  }

  lemma {:induction false} NetWithinEarned(rows: seq<Row>, account: string)
    requires forall r :: r in rows ==> ChecksPass(r.kind, r.points)
    ensures forall k: nat :: k <= |rows| ==> Net(rows[..k], account) <= Earned(rows, account)
    ensures Net(rows, account) <= Earned(rows, account)
  {
    assert rows[..|rows|] == rows;
    if |rows| > 0 {
      NetWithinEarned(Front(rows), account);
      assert Last(rows) in rows;
      assert forall k: nat :: k <= |Front(rows)| ==> Front(rows)[..k] == rows[..k];
    }
  }

  /** While the account's earned total fits in 64 bits the guard's sum, which already counts the uncommitted
      deduction, cannot overflow: a deduction is then refused only for want of points. */
  lemma GuardCannotOverflow(l: Ledger, t: Transaction)
    requires Valid(l) && Earned(l.rows, t.account) <= MAX_INT64
    requires InsertTransaction(l, t).Inserted? && IsDeduction(t.kind)
    ensures SqlSum(InsertTransaction(l, t).ledger.rows, t.account) == Some(Net(l.rows, t.account) - t.points)
    ensures Record(l, t).1 == Failed(InsufficientBalance) <==> Net(l.rows, t.account) < t.points
    ensures Record(l, t).1 != Failed(Internal)
  {
    NetWithinEarned(l.rows, t.account);
    PeakDecides(l.rows, t.account);
    GuardSum(l, t);
  }
}
