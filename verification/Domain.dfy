/** The wallet core's own types: kinds, transactions, errors and outcomes. */
module Domain {

  datatype Option<+T> = None | Some(value: T)

  const MAX_INT64: int := 0x7FFF_FFFF_FFFF_FFFF
  const MIN_INT64: int := -0x8000_0000_0000_0000

  /** Go's int64 and SQLite's INTEGER. */
  type Int64 = x: int | MIN_INT64 <= x <= MAX_INT64

  /** The direction of a transaction. `Other` stands for every string the CHECK refuses. */
  datatype Kind = Earn | Spend | Redeem | Other(name: string)

  /** An instant: whole seconds and the fraction that storage drops. */
  datatype Time = Time(second: int, nanos: nat)

  function Canonical(t: Time): Time {
    Time(t.second, 0)
  }

  datatype Transaction = Transaction(
    ref: string,
    account: string,
    kind: Kind,
    points: Int64,
    reward: string,
    at: Time)

  datatype Error = NotFound | AccountExists | InvalidInput | InsufficientBalance | Forbidden | Internal

  /** What recording a transaction answers: the stored transaction, or an error. */
  datatype Outcome = Stored(txn: Transaction, created: bool) | Failed(error: Error)

  predicate IsDeduction(k: Kind) {
    k == Spend || k == Redeem
  }

  function Front<T>(s: seq<T>): seq<T>
    requires |s| > 0
  {
    s[..|s| - 1]
  }

  function Last<T>(s: seq<T>): T
    requires |s| > 0
  {
    s[|s| - 1]
  }
}
