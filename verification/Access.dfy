/** Who may do what: the access rule, the handlers that write, and why members cannot reach each other. */
module Access {
  import opened Domain
  import opened Sql
  import opened LedgerSpec
  import opened Listings
  import opened Batch
  import opened BatchLaws

  /** The verified caller. */
  datatype Identity = Identity(account: string, role: Role)

  predicate Authorize(id: Identity, target: string) {
    id.role == Admin || id.account == target
  }

  /** authorizeTarget: a missing identity fails closed. */
  predicate MayTarget(caller: Option<Identity>, target: string) {
    caller.Some? && Authorize(caller.value, target)
  }

  /** requireAdmin. */
  predicate IsAdmin(caller: Option<Identity>) {
    caller.Some? && caller.value.role == Admin
  }

  /** The one place where domain errors become HTTP statuses. */
  function Status(e: Error): nat {
    match e
    case Forbidden => 403
    case NotFound => 404
    case AccountExists => 409
    case InsufficientBalance => 409
    case InvalidInput => 400
    case Internal => 500
  }

  function StatusOf(o: Outcome): nat {
    match o
    case Stored(_, created) => if created then 201 else 200
    case Failed(e) => Status(e)
  }

  datatype Request =
    | CreateTransaction(ref: string, account: string, kind: string, points: Int64, at: Option<Time>)
    | RedeemPoints(target: string, redemption: Transaction)
    | IngestBatch(header: bool, file: seq<Item>)

  /** The kind stays unset: the service method that is called forces it. */
  function Posted(r: Request): Transaction
    requires r.CreateTransaction? && r.at.Some?
  {
    Transaction(r.ref, r.account, Other(""), r.points, "", r.at.value)
  }

  /** POST /transactions; an absent time is the zero time. */
  function PostTransaction(l: Ledger, caller: Option<Identity>, r: Request, f: Fault): (Ledger, nat)
    requires r.CreateTransaction?
  {
    if r.ref == "" || r.account == "" || r.points < 1 || r.at.None? then (l, 400)
    else if r.kind != "earn" && r.kind != "spend" then (l, 400)
    else if !MayTarget(caller, r.account) then (l, 403)
    else
      var t := Posted(r);
      var (after, o) := if r.kind == "earn" then RecordEarn(l, t, f) else RecordSpend(l, t, f);
      (after, StatusOf(o))
  }

  /** POST /accounts/{id}/redeem: the path names the target, the body the rest. */
  function PostRedeem(l: Ledger, caller: Option<Identity>, r: Request, f: Fault): (Ledger, nat)
    requires r.RedeemPoints?
  {
    if !MayTarget(caller, r.target) then (l, 403)
    else
      var (after, o) := RecordRedeem(l, r.redemption.(account := r.target), f);
      (after, StatusOf(o))
  }

  /** POST /batch: admins only, and only under the expected header. */
  function PostBatch(l: Ledger, caller: Option<Identity>, r: Request): (Ledger, nat)
    requires r.IngestBatch?
  {
    if !IsAdmin(caller) then (l, 403)
    else if !r.header then (l, 400)
    else (RunFile(l, r.file).ledger, 200)
  }

  function Handle(l: Ledger, caller: Option<Identity>, r: Request, f: Fault): (Ledger, nat) {
    match r
    case CreateTransaction(_, _, _, _, _) => PostTransaction(l, caller, r, f)
    case RedeemPoints(_, _) => PostRedeem(l, caller, r, f)
    case IngestBatch(_, _) => PostBatch(l, caller, r)
  }

  /** An account's rows, balance and listing are as they were. */
  ghost predicate Untouched(l: Ledger, later: Ledger, a: string) {
    && ListByAccount(later.rows, a) == ListByAccount(l.rows, a)
    && Net(later.rows, a) == Net(l.rows, a)
    && SqlSum(later.rows, a) == SqlSum(l.rows, a)
  }

  lemma {:induction false} SumFits(rows: seq<Row>, a: string)
    ensures SqlSum(rows, a).Some? ==> MIN_INT64 <= SqlSum(rows, a).value <= MAX_INT64
  {
    if |rows| > 0 {
      SumFits(Front(rows), a);
    }
  }

  lemma RowTouchesOne(l: Ledger, r: Row, a: string)
    requires a != r.account
    ensures Untouched(l, l.(rows := l.rows + [r]), a)
  {
    FrontOfAppend(l.rows, r);
    SumFits(l.rows, a);
  }

  lemma RecordTouchesOne(l: Ledger, t: Transaction, f: Fault, a: string)
    requires a != t.account
    ensures Untouched(l, RecordWith(l, t, f).0, a)
  {
    var row := ToRow(t, NextId(l.rows));
    RowTouchesOne(l, row, a);
    FaultIsAllOrNothing(l, t, f);
    assert Record(l, t).0 == l || Record(l, t).0 == l.(rows := l.rows + [row]);
  }

  /** Each service call touches one account, and keeps the ledger's invariant. */
  lemma ServiceTouchesOne(l: Ledger, t: Transaction, f: Fault, a: string)
    requires a != t.account
    ensures Untouched(l, RecordEarn(l, t, f).0, a) && Untouched(l, RecordSpend(l, t, f).0, a)
    ensures Untouched(l, RecordRedeem(l, t, f).0, a)
  {
    RecordTouchesOne(l, t.(kind := Earn), f, a);
    RecordTouchesOne(l, t.(kind := Spend), f, a);
    RecordTouchesOne(l, t.(kind := Redeem), f, a);
  }

  lemma ServiceKeepsValid(l: Ledger, t: Transaction, f: Fault)
    requires Valid(l)
    ensures forall after :: after in {RecordEarn(l, t, f).0, RecordSpend(l, t, f).0, RecordRedeem(l, t, f).0} ==>
              Valid(after) && Extends(l, after)
  {
    RecordFacts(l, t.(kind := Earn), f);
    RecordFacts(l, t.(kind := Spend), f);
    RecordFacts(l, t.(kind := Redeem), f);
  }

  /** The caller is neither an admin nor the account. */
  predicate Stranger(caller: Option<Identity>, a: string) {
    caller.Some? ==> caller.value.role == Member && caller.value.account != a
  }

  lemma TransactionIsIsolated(l: Ledger, caller: Option<Identity>, r: Request, f: Fault, a: string)
    requires r.CreateTransaction? && Stranger(caller, a)
    ensures Untouched(l, PostTransaction(l, caller, r, f).0, a)
  {
    if r.at.Some? && r.account != a {
      ServiceTouchesOne(l, Posted(r), f, a);
    }
  }

  lemma RedeemIsIsolated(l: Ledger, caller: Option<Identity>, r: Request, f: Fault, a: string)
    requires r.RedeemPoints? && Stranger(caller, a)
    ensures Untouched(l, PostRedeem(l, caller, r, f).0, a)
  {
    if r.target != a {
      ServiceTouchesOne(l, r.redemption.(account := r.target), f, a);
    }
  }

  lemma RefusedInternally(l: Ledger, t: Transaction)
    requires Valid(l)
    ensures ChecksPass(t.kind, t.points) ==>
              (RecordWith(l, t, NoFault).1 == Failed(Internal) <==>
               Fresh(l, t) && IsDeduction(t.kind) && SqlSum(l.rows, t.account).None?)
  {
    FaultIsAllOrNothing(l, t, NoFault);
    RecordOutcomes(l, t);
  }

  /** Service calls never meet the table's CHECKs: without faults an earn has no internal error, and a deduction
      has one exactly when the ref is new on a known account whose balance overflows 64 bits. */
  lemma InternalMeansOverflow(l: Ledger, t: Transaction)
    requires Valid(l)
    ensures RecordEarn(l, t, NoFault).1 != Failed(Internal)
    ensures var jammed := HasAccount(l, t.account) && FindRef(l.rows, t.ref).None? && SqlSum(l.rows, t.account).None?;
            && (RecordSpend(l, t, NoFault).1 == Failed(Internal) <==> InputOk(t) && jammed)
            && (RecordRedeem(l, t, NoFault).1 == Failed(Internal) <==> InputOk(t) && t.reward != "" && jammed)
  {
    RefusedInternally(l, t.(kind := Earn));
    RefusedInternally(l, t.(kind := Spend));
    RefusedInternally(l, t.(kind := Redeem));
  }

  /** A caller who is not an admin touches no account but its own, by any request and under any fault. */
  lemma WritesAreIsolated(l: Ledger, caller: Option<Identity>, r: Request, f: Fault, a: string)
    requires Stranger(caller, a)
    ensures Untouched(l, Handle(l, caller, r, f).0, a)
  {
    match r
    case CreateTransaction(_, _, _, _, _) => TransactionIsIsolated(l, caller, r, f, a);
    case RedeemPoints(_, _) => RedeemIsIsolated(l, caller, r, f, a);
    case IngestBatch(_, _) =>
  }

  datatype Call = Call(caller: Option<Identity>, request: Request, fault: Fault)

  function HandleAll(l: Ledger, calls: seq<Call>): Ledger {
    if |calls| == 0 then l
    else Handle(HandleAll(l, Front(calls)), Last(calls).caller, Last(calls).request, Last(calls).fault).0
  }

  /** Over a whole run: as long as neither an admin nor the account itself calls,
      nothing the others do changes the account's rows, balance or listing. */
  lemma {:induction false} RunsAreIsolated(l: Ledger, calls: seq<Call>, a: string)
    requires forall k :: 0 <= k < |calls| ==> Stranger(calls[k].caller, a)
    ensures Untouched(l, HandleAll(l, calls), a)
  {
    if |calls| > 0 {
      var last := Last(calls);
      assert last == calls[|calls| - 1];
      assert forall k :: 0 <= k < |Front(calls)| ==> Front(calls)[k] == calls[k];
      RunsAreIsolated(l, Front(calls), a);
      WritesAreIsolated(HandleAll(l, Front(calls)), last.caller, last.request, last.fault, a);
    }
  }

  /** Nothing the handlers do, by anyone, breaks the ledger's invariant. */
  lemma {:induction false} HandlersKeepValid(l: Ledger, calls: seq<Call>)
    requires Valid(l)
    ensures Valid(HandleAll(l, calls)) && Extends(l, HandleAll(l, calls))
  {
    if |calls| > 0 {
      HandlersKeepValid(l, Front(calls));
      HandlerKeepsValid(HandleAll(l, Front(calls)), Last(calls));
    }
  }

  lemma HandlerKeepsValid(l: Ledger, c: Call)
    requires Valid(l)
    ensures var after := Handle(l, c.caller, c.request, c.fault).0; Valid(after) && Extends(l, after)
  {
    match c.request
    case CreateTransaction(_, _, _, _, _) =>
      if c.request.at.Some? {
        ServiceKeepsValid(l, Posted(c.request), c.fault);
      }
    case RedeemPoints(target, redemption) =>
      ServiceKeepsValid(l, redemption.(account := target), c.fault);
    case IngestBatch(_, file) =>
      RunFacts(l, file);
  }

  // What the statuses say

  predicate WellFormed(r: Request) {
    match r
    case CreateTransaction(ref, account, kind, points, at) =>
      ref != "" && account != "" && points >= 1 && at.Some? && (kind == "earn" || kind == "spend")
    case _ => true
  }

  /** The account a request acts on; an upload acts on none in particular. */
  function Target(r: Request): Option<string> {
    match r
    case CreateTransaction(_, account, _, _, _) => Some(account)
    case RedeemPoints(target, _) => Some(target)
    case IngestBatch(_, _) => None
  }

  /** A well-formed request is forbidden exactly to those who are neither admin nor the account it acts on,
      and a forbidden request leaves the ledger as it was. */
  lemma ForbiddenExactly(l: Ledger, caller: Option<Identity>, r: Request, f: Fault)
    requires Valid(l) && WellFormed(r)
    ensures Handle(l, caller, r, f).1 == 403 <==>
            !(caller.Some? && (caller.value.role == Admin || Target(r) == Some(caller.value.account)))
    ensures Handle(l, caller, r, f).1 == 403 ==> Handle(l, caller, r, f).0 == l
  {
    match r
    case CreateTransaction(_, _, _, _, _) => NeverForbidden(l, Posted(r), f);
    case RedeemPoints(target, redemption) => NeverForbidden(l, redemption.(account := target), f);
    case IngestBatch(_, _) =>
  }

  lemma ForbiddenStatus(o: Outcome)
    ensures StatusOf(o) == 403 <==> o == Failed(Forbidden)
  {
  }

  lemma RecordNeverForbids(l: Ledger, t: Transaction, f: Fault)
    ensures RecordWith(l, t, f).1 != Failed(Forbidden)
  {
    FaultIsAllOrNothing(l, t, f);
  }

  lemma NeverForbidden(l: Ledger, t: Transaction, f: Fault)
    ensures StatusOf(RecordEarn(l, t, f).1) != 403 && StatusOf(RecordSpend(l, t, f).1) != 403
    ensures StatusOf(RecordRedeem(l, t, f).1) != 403
  {
    RecordNeverForbids(l, t.(kind := Earn), f);
    RecordNeverForbids(l, t.(kind := Spend), f);
    RecordNeverForbids(l, t.(kind := Redeem), f);
    ForbiddenStatus(RecordEarn(l, t, f).1);
    ForbiddenStatus(RecordSpend(l, t, f).1);
    ForbiddenStatus(RecordRedeem(l, t, f).1);
  }

  lemma OneRow(l: Ledger, t: Transaction, f: Fault)
    requires Valid(l)
    ensures StatusOf(RecordWith(l, t, f).1) == 201 <==> |RecordWith(l, t, f).0.rows| == |l.rows| + 1
    ensures StatusOf(RecordWith(l, t, f).1) != 201 ==> RecordWith(l, t, f).0 == l
  {
    RecordFacts(l, t, f);
  }

  /** What 201 says of one call: one new row; any other status: the ledger is as it was. */
  predicate StatusTells(l: Ledger, reply: (Ledger, nat)) {
    (reply.1 == 201 <==> |reply.0.rows| == |l.rows| + 1) && (reply.1 != 201 ==> reply.0 == l)
  }

  lemma TransactionTells(l: Ledger, caller: Option<Identity>, r: Request, f: Fault)
    requires Valid(l) && r.CreateTransaction?
    ensures StatusTells(l, PostTransaction(l, caller, r, f))
  {
    if r.at.Some? {
      OneRow(l, Posted(r).(kind := Earn), f);
      OneRow(l, Posted(r).(kind := Spend), f);
    }
  }

  lemma RedemptionTells(l: Ledger, caller: Option<Identity>, r: Request, f: Fault)
    requires Valid(l) && r.RedeemPoints?
    ensures StatusTells(l, PostRedeem(l, caller, r, f))
  {
    OneRow(l, r.redemption.(account := r.target, kind := Redeem), f);
  }

  /** 201 means exactly: one new row; any other status: the ledger is as it was. */
  lemma CreatedMeansOneRow(l: Ledger, caller: Option<Identity>, r: Request, f: Fault)
    requires Valid(l) && !r.IngestBatch?
    ensures var (after, status) := Handle(l, caller, r, f);
            (status == 201 <==> |after.rows| == |l.rows| + 1) && (status != 201 ==> after == l)
  {
    match r
    case CreateTransaction(_, _, _, _, _) => TransactionTells(l, caller, r, f);
    case RedeemPoints(_, _) => RedemptionTells(l, caller, r, f);
  }
}
