/** Which status each request is answered with, read off the request, its caller and the tables. */
module Statuses {
  import opened Domain
  import opened Sql
  import opened LedgerSpec
  import opened Answers
  import opened Batch
  import opened Access

  /** Neither an admin nor the account itself. */
  predicate Outsider(caller: Option<Identity>, target: string) {
    match caller
    case None => true
    case Some(id) => id.role.Member? && id.account != target
  }

  /** The answer to a transaction with valid fields whose caller may make it. */
  ghost predicate StatusTold(l: Ledger, t: Transaction, f: Fault, after: Ledger, status: nat) {
    if Bites(l, t, f) then after == l && status == 500 else VerdictStatus(l, t, after, status)
  }

  ghost predicate VerdictStatus(l: Ledger, t: Transaction, after: Ledger, status: nat) {
    match VerdictOn(l, t)
    case AccountUnknown => after == l && status == 404
    case AlreadyThere => after == l && status == 200
    case SumOverflows => after == l && status == 500
    case TooFew => after == l && status == 409
    case GoesThrough => Adds(l, after, t) && status == 201
  }

  lemma StatusFollows(l: Ledger, t: Transaction, after: Ledger, o: Outcome)
    requires RecordTold(l, t, after, o)
    ensures VerdictStatus(l, t, after, StatusOf(o))
  {
  }

  ghost predicate PostTold(l: Ledger, caller: Option<Identity>, r: Request, f: Fault, after: Ledger, status: nat)
    requires r.CreateTransaction?
  {
    if r.ref == "" || r.account == "" || r.points < 1 || r.at == None || (r.kind != "earn" && r.kind != "spend") then
      after == l && status == 400
    else if Outsider(caller, r.account) then after == l && status == 403
    else
      var kind := if r.kind == "earn" then Earn else Spend;
      StatusTold(l, Transaction(r.ref, r.account, kind, r.points, "", r.at.value), f, after, status)
  }

  ghost predicate RedeemTold(
      l: Ledger, caller: Option<Identity>, target: string, r: Transaction, f: Fault, after: Ledger, status: nat) {
    if Outsider(caller, target) then after == l && status == 403
    else if r.ref == "" || target == "" || r.points < 1 || r.reward == "" then after == l && status == 400
    else StatusTold(l, Transaction(r.ref, target, Redeem, r.points, r.reward, r.at), f, after, status)
  }

  lemma RecordStatus(l: Ledger, t: Transaction, f: Fault)
    requires Valid(l) && ChecksPass(t.kind, t.points)
    ensures StatusTold(l, t, f, RecordWith(l, t, f).0, StatusOf(RecordWith(l, t, f).1))
  {
    var (after, o) := RecordWith(l, t, f);
    FaultBites(l, t, f);
    if !Bites(l, t, f) {
      RecordTells(l, t);
      StatusFollows(l, t, after, o);
    }
  }

  lemma PostRecords(l: Ledger, caller: Option<Identity>, r: Request, f: Fault)
    requires r.CreateTransaction? && WellFormed(r) && MayTarget(caller, r.account)
    ensures var kind := if r.kind == "earn" then Earn else Spend;
            var (after, o) := RecordWith(l, Transaction(r.ref, r.account, kind, r.points, "", r.at.value), f);
            PostTransaction(l, caller, r, f) == (after, StatusOf(o))
  {
  }

  /** POST /transactions: malformed requests get 400 and outsiders 403; otherwise 404, 200, 409, 500 or 201
      exactly as the account, the ref and the balance have it, and only 201 adds a row. */
  lemma PostIsAnswered(l: Ledger, caller: Option<Identity>, r: Request, f: Fault)
    requires Valid(l) && r.CreateTransaction?
    ensures PostTold(l, caller, r, f, Handle(l, caller, r, f).0, Handle(l, caller, r, f).1)
  {
    if WellFormed(r) && MayTarget(caller, r.account) {
      PostRecords(l, caller, r, f);
      RecordStatus(l, Transaction(r.ref, r.account, if r.kind == "earn" then Earn else Spend, r.points, "", r.at.value), f);
    }
  }

  lemma RedeemRecords(l: Ledger, caller: Option<Identity>, target: string, r: Transaction, f: Fault)
    requires MayTarget(caller, target) && r.ref != "" && target != "" && r.points > 0 && r.reward != ""
    ensures var (after, o) := RecordWith(l, Transaction(r.ref, target, Redeem, r.points, r.reward, r.at), f);
            PostRedeem(l, caller, Request.RedeemPoints(target, r), f) == (after, StatusOf(o))
  {
  }

  /** POST /accounts/{id}/redeem: outsiders get 403, and a redemption without a reward 400. */
  lemma RedeemIsAnswered(l: Ledger, caller: Option<Identity>, target: string, r: Transaction, f: Fault)
    requires Valid(l)
    ensures var (after, status) := Handle(l, caller, Request.RedeemPoints(target, r), f);
            RedeemTold(l, caller, target, r, f, after, status)
  {
    if MayTarget(caller, target) && r.ref != "" && target != "" && r.points > 0 && r.reward != "" {
      RedeemRecords(l, caller, target, r, f);
      RecordStatus(l, Transaction(r.ref, target, Redeem, r.points, r.reward, r.at), f);
    }
  }

  ghost predicate BatchTold(
      l: Ledger, caller: Option<Identity>, header: bool, file: seq<Item>, after: Ledger, status: nat) {
    if caller.None? || caller.value.role.Member? then after == l && status == 403
    else if !header then after == l && status == 400
    else after == RunFile(l, file).ledger && status == 200
  }

  /** POST /batch: 403 to all but admins, 400 without the header, and 200 whatever becomes of the rows. */
  lemma BatchIsAnswered(l: Ledger, caller: Option<Identity>, header: bool, file: seq<Item>)
    ensures var (after, status) := Handle(l, caller, IngestBatch(header, file), NoFault);
            BatchTold(l, caller, header, file, after, status)
  {
  }
}
