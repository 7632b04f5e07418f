# The points ledger of gowallet, in Dafny

gowallet keeps a ledger of points: members earn, spend and redeem, a balance is the sum of an account's rows, and a
deduction that would take a balance below zero is refused. The rules live in one SQL transaction that inserts first
and checks afterwards, on a single database connection, and everything else (requests, CSV uploads, the audit trail)
is driven through it.

The model has five layers.

- **Statements and their atomic meaning.** `Sql` says what each SQL statement does to the tables, including the
  64-bit running SUM and the order in which constraints are checked. `LedgerSpec` composes them into `Record` (and
  `RecordWith`, for a failure at any statement) and defines the invariant `Valid`: keys, CHECKs, foreign key, and
  solvency after every row. `Listings`, `Overflow` and `Operations` treat the overview, the account listing, the
  64-bit sums and the store's operations as atomic steps.
- **All requests at once.** `Machine` is a transition system with any number of programs, each a call or an upload,
  whose statements interleave on one connection. A record call works on its own copy of the ledger, which may be in
  debt between its insert and its check. Any statement may fail and any request may die at any point.
  `Serializability` reduces every schedule to a serial run and `Linearizability` places every answered call between
  its start and its answer; `Safety`, `AuditTrail`, `Races`, `ConcurrentUploads`, `Jammed` and `Isolation` build on them.
- **Uploads and handlers.** `Batch` parses, submits, classifies and audits CSV rows; `BatchLaws` says what one upload
  does and what uploading again does. `Access` has the access rule and the handlers that write; `Isolation` turns
  each request into the calls it makes and takes the rule to all schedules.
- **What is answered.** `Answers` says what reads and record calls answer in terms of the tables alone, `RowRules` what
  becomes of a CSV row from its text and the tables, and `Statuses` which status each request gets.
- **The program as it runs.** `StoreImpl.Store`, `Server.Handlers`, `Server.Counters` and `Migration.Database` are
  classes whose methods update tables, counters and audit rows in place, with the loops and early returns of the
  code, proved against the functions above.

What the environment decides is a parameter: which statement fails (`Fault`), whether an audit write works, the
clock, the result of parsing a timestamp, the verified identity, and the schedule. SQLite is taken at its word for
atomic commit and rollback, for enforcing constraints, for raising an error when SUM overflows, and for strictly
increasing ids (a new row takes the last id plus one; gaps already present are allowed everywhere).

Where the documentation and the code disagree the model follows the code:

- `docs/ACCEPTANCE.md` calls reprocessing a file safe. Nothing is counted twice, but a second pass is not always
  without effect: a spend that stood before the earn it needed is refused once and accepted the second time
  (`SecondPassCanAccept`). `SecondPassIsNoOp` and `PassIsNoOp` give the exact conditions, in terms of what the ledger
  covers before the pass, and `RepeatedUploadSettles` the number of passes after which nothing changes any more.
- An earn is never checked, on the ground that it cannot take a balance below zero. Indeed it cannot, but an earn
  that takes a balance past 2^63-1 is accepted and jams the account: its SUM overflows. `EarnJams` says exactly when,
  `TwoEarnsJam` shows two accepted earns that do it, after which the balance read, every new deduction and the whole
  overview end in an internal error, and `JammedForEver` says that no continuation of any schedule undoes it.
- Comments on the balance speak of earned minus spent; redemptions are deducted as well, and that is what is proved.

## Model

| member | source | states |
|---|---|---|
| LedgerSpec.SqlSumIsNet | internal/sqlitestore/queries/queries.sql:29-37 | whenever the 64-bit SUM returns, it is the mathematical balance |
| LedgerSpec.SolventIffEveryPrefix | internal/sqlitestore/accounts.go:183-192 | the solvency invariant is exactly: every account at zero or above after every prefix of the ledger |
| LedgerSpec.RecordKeepsValid | internal/sqlitestore/accounts.go:150-227 | recording keeps keys, CHECKs, foreign key and solvency, for any transaction |
| LedgerSpec.RecordOutcomes | internal/sqlitestore/accounts.go:159-226 | exactly when each answer is given, what is stored and answered, and that any other answer leaves the ledger alone |
| LedgerSpec.GuardSum | internal/sqlitestore/accounts.go:193-204 | the guard's sum counts the uncommitted deduction, and fails exactly when the sum before it does |
| Answers.RecordTells | internal/sqlitestore/accounts.go:150-227 | unknown account, known ref, overflowed sum, too few points or one new row with exactly the given fields, decided by the tables |
| StoreImpl.Store.RecordTransaction | internal/sqlitestore/accounts.go:150-227 | begin, insert, check, read back, commit, deferred rollback: the committed ledger and the answer are those of the atomic call, for every fault |
| StoreImpl.Store.InTransaction | internal/sqlitestore/accounts.go:157-226 | the statements between begin and the deferred rollback, on the working ledger |
| StoreImpl.Store.CreateAccount | internal/sqlitestore/accounts.go:26-40 | a new member account, or account-exists and no change |
| StoreImpl.Store.Balance | internal/sqlitestore/accounts.go:75-89 | not-found exactly for an unknown account, the balance exactly when no balance of its history exceeded 2^63-1, an internal error otherwise; the answer of the atomic read |
| StoreImpl.Store.ListAccounts | internal/sqlitestore/accounts.go:94-113 | every account once, in id order, with its stored name and role and its balance, or an internal error exactly when some sum overflows; the answer of the atomic read |
| StoreImpl.Store.ListTransactions | internal/sqlitestore/accounts.go:118-143 | not-found exactly for an unknown account; otherwise each of its rows once, newest first, as stored but for the reward, adding up to the balance; the answer of the atomic read |
| StoreImpl.Store.AppendAudit | internal/sqlitestore/audit.go:16-29 | one row appended under a fresh id with the second-precision clock, nothing else touched; a failed write appends nothing |
| StoreImpl.Store.ListAudit | internal/sqlitestore/audit.go:34-53 | exactly the attempts on the account, or all of them for the empty id, in strictly decreasing id order |
| StoreImpl.AuditListingIsExact | internal/sqlitestore/queries/queries.sql:65-74 | a listing is exactly the account's attempts, in strictly decreasing id order |
| Listings.SortSorts | internal/sqlitestore/queries/queries.sql:44-50 | ORDER BY account_id reorders the accounts, strictly increasing |
| Listings.BeforeMeans | internal/sqlitestore/queries/queries.sql:44-50 | the order of account ids: a prefix comes first, otherwise the first differing character decides |
| Listings.OverviewConserves | internal/sqlitestore/accounts.go:94-113 | when the overview succeeds, what it lists (admin for a stored "admin", member for a stored "member"), that each balance equals a single read, and that the balances add up to earned less spent and redeemed |
| Listings.ListingIsExact | internal/sqlitestore/queries/queries.sql:52-58 | an account's listing is exactly its rows, in strictly decreasing id order |
| Listings.ListingTellsBalance | internal/sqlitestore/queries/queries.sql:52-58 | running totals from the oldest entry are never negative and end at the balance |
| Listings.ListingsPartition | internal/sqlitestore/accounts.go:118-143 | every row is in exactly one account's listing |
| Overflow.AnyOrderIsSafe | internal/sqlitestore/queries/queries.sql:29-37 | the sum is the balance in every visit order if and only if the account's earned total is at most 2^63-1 |
| Overflow.PeakDecides | internal/sqlitestore/queries/queries.sql:29-37 | in id order the sum fails if and only if some earlier balance exceeded 2^63-1 |
| Overflow.OverflowPersists | internal/sqlitestore/queries/queries.sql:29-37 | a sum that fails keeps failing whatever rows are appended |
| Jammed.EarnJams | internal/sqlitestore/accounts.go:183-204 | a new earn is always accepted, and jams its account if and only if the balance it makes exceeds 2^63-1 |
| Jammed.EarnsJam | internal/sqlitestore/accounts.go:183-204 | two accepted earns, one too many: balance read, spend and overview then end in an internal error, on any valid ledger |
| Jammed.TwoEarnsJam | internal/sqlitestore/accounts.go:183-204 | such earns exist on an account just opened |
| Jammed.JammedForEver | internal/sqlitestore/accounts.go:75-113 | in every continuation of a schedule a jammed account stays jammed: every later balance read and overview is an internal error, every later deduction on it an internal error or a replay |
| Overflow.GuardCannotOverflow | internal/sqlitestore/accounts.go:193-204 | with the earned total in 64 bits the guard cannot overflow, and refuses exactly for want of points |
| Operations.ExecKeepsValid | internal/sqlitestore/accounts.go:26-227 | every store operation keeps the ledger's invariant |
| Operations.CreateOutcomes | internal/sqlitestore/accounts.go:22-40 | creation succeeds exactly on a free id, stores a member with second-precision time, zero balance and empty ledger, and touches no other account |
| Answers.BalanceTells | internal/sqlitestore/accounts.go:75-89 | what a balance read answers, from the rows and accounts alone |
| Answers.ListingTells | internal/sqlitestore/accounts.go:118-143 | what a listing answers: the places in the table of its entries strictly decrease and are all the account's, each entry shows its row, the entries add up to the balance |
| Answers.OverviewTells | internal/sqlitestore/accounts.go:94-113 | what the overview answers, and exactly when it fails |
| Answers.OverviewShowsReads | internal/sqlitestore/accounts.go:75-113 | an account's number in the overview is the one its balance read answers |
| Answers.NewAccountShows | internal/sqlitestore/accounts.go:22-40 | an account just opened shows in the overview as a member with balance zero |
| Serializability.EventIsAtomic | internal/sqlitestore/accounts.go:150-227 | every event of every request has no effect, or exactly its current operation's, atomically |
| Serializability.Serializable | internal/sqlitestore/sqlite.go:44-45 | every schedule with failures and deaths gives the ledger and answers of the serial run in release order, which holds exactly what each caller was told, in program order |
| Safety.NoOverdraft | internal/sqlitestore/accounts.go:167-204 | in every reachable state the committed ledger is valid and solvent after every prefix |
| Safety.WorkingLedgerCanBeInDebt | internal/sqlitestore/accounts.go:183-187 | the open transaction's ledger does go below zero between insert and guard |
| Safety.ReadersSeeNoDebt | internal/sqlitestore/accounts.go:75-143 | no balance, overview or listing answered in any schedule shows a negative balance |
| Safety.ReadersAreTold | internal/sqlitestore/accounts.go:75-143 | in every schedule each read tells the balances, entries and accounts of the ledger that the operations before it have left |
| Safety.FirstWriteWins | internal/sqlitestore/accounts.go:167-182 | a later call with a committed ref changes nothing and gets the first writer's row |
| Safety.OneCreatorPerRef | internal/sqlitestore/accounts.go:206-226 | in every schedule one request at most is told it created a ref, and later ones are told the same transaction |
| Safety.CommittedForEver | internal/sqlitestore/queries/queries.sql:17-21 | committed rows and accounts never change or vanish in any continuation |
| Linearizability.AnswersAreLinearizable | internal/sqlitestore/accounts.go:75-143 | in every schedule each answered call, the two-statement reads and create-then-read-back included, took effect at an instant inside its own interval, with the atomic call's answer there |
| Linearizability.InstantsDiffer | internal/sqlitestore/sqlite.go:44-45 | each answered call has one instant of its own, and a program's instants follow its calls |
| Linearizability.RealTimeOrder | internal/sqlitestore/sqlite.go:44-45 | a call answered before another starts takes effect before it |
| AuditTrail.AuditTellsTheTruth | internal/httpapi/batch.go:113-125 | in every schedule each report of an acceptance or a replay is backed by a call of its own that took effect with that ref, account, kind, points and outcome |
| AuditTrail.AcceptedOncePerRef | internal/httpapi/batch.go:113-125 | in every schedule of any uploads the trail reports a ref as accepted at most once |
| AuditTrail.EveryRowIsReported | internal/httpapi/batch.go:76-79 | in every schedule audit entries, failed audit writes and rows still to come add up to the rows of all uploads: a row that is done is reported, also when its record call failed |
| AuditTrail.AuditOffMoneyPath | internal/httpapi/batch.go:128-134 | in every schedule any audit writes that worked may fail instead: the schedule stays possible and all but the trail is as it was |
| Safety.RunsAreFinite | internal/httpapi/batch.go:65-84 | every schedule ends within a bound fixed by the programs |
| Safety.NoDeadlock | internal/sqlitestore/accounts.go:151-157 | while a request is unfinished some request's next statement can run |
| Races.RaceOfAmounts | internal/sqlitestore/accounts.go:183-204 | deductions in any order: what is left is the balance less what was accepted, never negative, and less than every refused amount |
| Races.RaceNeverOverspends | internal/sqlitestore/accounts.go:183-204 | the same over all schedules of racing requests |
| Races.RaceIsExact | internal/sqlitestore/accounts.go:183-204 | equal deductions: of those decided, exactly as many succeed as the balance pays for |
| Races.FinishedRace | internal/sqlitestore/accounts.go:183-204 | when all k are answered exactly min(k, balance / amount) succeeded |
| Batch.PointsReadBack | internal/httpapi/batch.go:172-175 | the points column reads back every amount up to 2^63-1 amid spaces, and refuses anything larger |
| Batch.PointsAreRead | internal/httpapi/batch.go:172-175 | the points column is read as n if and only if it is an optional sign and decimal digits amid spaces whose value is n, with n from 1 to 2^63-1 |
| Batch.RowsAreDecided | internal/httpapi/batch.go:156-189 | a row parses if and only if it has five fields, a known kind, such points and a time, and then to what it writes down; otherwise the first thing wrong is the reason |
| Batch.RowReadsBack | internal/httpapi/batch.go:156-189 | a well-formed row parses to the transaction it writes down |
| BatchLaws.RowStepFacts | internal/httpapi/batch.go:91-126 | one row adds exactly the row its entry reports as accepted, and otherwise nothing |
| RowRules.RowIsDecided | internal/httpapi/batch.go:65-152 | the effect and the whole audit entry of any row, from its text and the tables: refused unread, refused for an empty ref or account, unknown account, replay, overflow, too few points, or recorded |
| RowRules.UploadIsDecided | internal/httpapi/batch.go:65-126 | each row of an upload is decided so on the ledger that the rows before it leave, whatever faults they meet |
| BatchLaws.UploadReconciles | internal/httpapi/batch.go:65-126 | summary, outcome counts, new ledger rows and every balance change agree, whatever faults rows meet |
| BatchLaws.EveryRowAudited | internal/httpapi/batch.go:76-79 | with working audit writes the trail gains one entry per row, in order |
| BatchLaws.SecondPass | internal/httpapi/batch.go:91-126 | a second pass: recorded rows replay, final refusals repeat, only spends refused by the guard may change |
| BatchLaws.PassIsNoOp | internal/httpapi/batch.go:65-84 | a pass changes nothing if and only if no row has a new ref on a known account with, for a spend, the points there beforehand |
| BatchLaws.LeftToRecord | internal/httpapi/batch.go:91-126 | after a pass a row is left to record if and only if the guard refused it, its ref is still new and its points are there by now |
| BatchLaws.SecondPassIsNoOp | internal/httpapi/batch.go:65-84 | a second pass is without effect if and only if every spend the guard refused has its ref taken or still lacks the points |
| BatchLaws.SecondPassCanAccept | internal/sqlitestore/accounts.go:198-203 | a file whose second pass changes the ledger |
| BatchLaws.PassUsesRefs | internal/httpapi/batch.go:91-126 | a pass that changes the ledger uses up one of the file's absent refs |
| BatchLaws.RepeatedUploadSettles | internal/httpapi/batch.go:65-84 | repeating a file reaches a fixed point within as many passes as it has absent refs |
| BatchLaws.AfloatIffEveryPrefix | internal/sqlitestore/accounts.go:193-204 | the feasibility condition is: every prefix of the file keeps every account at zero or above |
| BatchLaws.FeasibleFile | internal/httpapi/batch.go:65-126 | a file of new rows within 64 bits is accepted in full if and only if it is feasible; balances then move by its net |
| ConcurrentUploads.RowAgain | internal/httpapi/batch.go:91-126 | deciding a row again after further rows leaves the ledger as it is |
| ConcurrentUploads.UploadsActAsOne | internal/httpapi/batch.go:65-84 | concurrent uploads of one file beside any readers: the ledger is always that of one run over the first m rows, m the furthest progress, even if statements fail at rows that another upload has decided |
| ConcurrentUploads.UploadsEndAsOne | internal/httpapi/batch.go:65-84 | once one upload is through, the ledger is that of a single upload, under the same conditions |
| Server.SameHeader | internal/httpapi/batch.go:192-202 | the scan decides exactly whether the trimmed record is the header |
| Server.HeaderIsRead | internal/httpapi/batch.go:192-202 | the header is accepted if and only if it is the five column names, each amid spaces |
| Server.Handlers.RecordAudit | internal/httpapi/batch.go:132-134 | appends the entry or nothing, refuses an unknown outcome, never touches the ledger |
| Server.Handlers.Record | internal/wallet/wallet.go:203-236 | checks the input, forces the kind, records |
| Server.Handlers.ProcessRow | internal/httpapi/batch.go:91-126 | the ledger step and the audit entry that the row's text and the tables decide, and the counter of its outcome |
| Server.Handlers.IngestRecords | internal/httpapi/batch.go:65-84 | the loop: ledger, counters and audit trail are those of the run of the file |
| Server.Handlers.IngestBatch | internal/httpapi/batch.go:42-87 | 403 to all but admins, 400 without the expected header; otherwise 200 with the ledger, summary and appended audit rows of the run |
| Server.Handlers.PostTransaction | internal/httpapi/accounts.go:141-199 | 400, 403, 404, 200, 409, 500 or 201 exactly as the request, the caller and the tables have it, and the new row of a 201; checks, access rule and dispatch as in the code |
| Server.Handlers.RedeemPoints | internal/httpapi/redeem.go:20-63 | the same for a redemption: 403 to outsiders before anything else, 400 also without a reward |
| Server.Handlers.CreateAccount | internal/httpapi/accounts.go:14-48 | create, then read back: the answer is the stored account, its read-back never fails to find it |
| Statuses.PostIsAnswered | internal/httpapi/errors.go:16-34 | the status of every transaction request, under any fault, from the request, the caller and the tables |
| Statuses.RedeemIsAnswered | internal/httpapi/redeem.go:29-54 | the status of every redemption request, likewise |
| Access.InternalMeansOverflow | internal/wallet/wallet.go:203-236 | the service's checks make the table's CHECKs unreachable: an internal error means exactly an overflowed balance |
| Access.WritesAreIsolated | internal/httpapi/identity.go:22-47 | a caller who is no admin changes no other account's rows, balance or listing |
| Access.RunsAreIsolated | internal/wallet/auth.go:49-57 | over a run of requests by strangers under any faults an account's rows, balance and listing stay as they are |
| Isolation.TasksAreTheRequest | internal/httpapi/accounts.go:141-199 | the calls a handler makes, carried out one after another, do to the ledger what the handler does |
| Isolation.SchedulesAreIsolated | internal/sqlitestore/accounts.go:150-227 | in every schedule an account that no program records on keeps its rows, balance and listing |
| Isolation.StrangersAreIsolated | internal/httpapi/identity.go:22-47 | requests of strangers, all at once and interleaved in any way, leave an account's rows, balance and listing as they are |
| Access.HandlersKeepValid | internal/httpapi/accounts.go:141-199 | no run of requests by anyone breaks the invariant or removes anything |
| Migration.UpKeepsBalances | internal/sqlitestore/migrations/20260619100000_s8_redeem_kind.sql:18-19 | widening keeps every balance |
| Migration.UpKeepsListings | internal/sqlitestore/migrations/20260619100000_s8_redeem_kind.sql:18-19 | widening keeps every listing, entry by entry and in order |
| Migration.DownAfterUp | internal/sqlitestore/migrations/20260619100000_s8_redeem_kind.sql:26-46 | down undoes up |
| Migration.UpAfterDown | internal/sqlitestore/migrations/20260619100000_s8_redeem_kind.sql:26-46 | up undoes down if and only if nothing was redeemed |
| Migration.DownRefunds | internal/sqlitestore/migrations/20260619100000_s8_redeem_kind.sql:39-41 | down raises each balance by exactly what was redeemed |
| Migration.DownKeepsValid | internal/sqlitestore/migrations/20260619100000_s8_redeem_kind.sql:29-41 | down keeps keys, CHECKs, foreign key and solvency after every prefix |
| Migration.Database.Up | internal/sqlitestore/migrations/20260619100000_s8_redeem_kind.sql:7-24 | the copy loop is never refused by a constraint and keeps every row |
| Migration.Database.Down | internal/sqlitestore/migrations/20260619100000_s8_redeem_kind.sql:29-46 | the copy loop keeps exactly the earn and spend rows and is never refused |

## Left out

- HTTP routing, JSON, the error envelope, response bodies, OpenAPI validation, health and Swagger routes: plumbing.
- Signing and verifying tokens, bcrypt and login: a verified identity and a finished password hash are inputs.
- SQLite internals: ids skipped by refused inserts, WAL, busy timeouts; several server processes on one file.
- CSV lexing, multipart reading and timestamp parsing: the reader's records arrive as a finite sequence, each with
  the result of parsing its time. Times are instants whose fraction of a second storage drops; zones are not modelled,
  nor are years outside RFC 3339.
- created_at of transaction rows, and indexes: nothing reads them back.
- Uploads in the machine carry each row's plan, the result of parsing it, because parsing has no state.
- In the machine an account creation starts after the service has checked its id and name (the handler does so in `Server`).
- Concurrent uploads in which a statement fails at the furthest row: that row is then decided after later ones, or not at all.
- Failing read statements of a single reader are in the machine (`Abort`) but not in the `Store` methods.
