# Order-safety model of rasattrading-mcp

A Dafny model of the trading daemon's order-safety kernel and of the algorithmic cores beside it, with proofs of what
they promise. `dafny verify dfyconfig.toml` checks everything.

**The order path.** `OrderProtocol` is a state machine with one step per durable write, broker call, broker answer and
interleaving point of `storage/orders.py`: preflight, caps, override, insert, submit, answer, timeout, query, crash,
restart, startup reconcile, kill switch, and an exchange that finishes orders on its own. `OrderSafety` and
`OrderExposure` prove safety over all of its runs, and `OrderTruth` says when a stored status is what happened to the
order. `OrderService` holds the same calls as methods over the order table, with `OrderPlacing` for what becomes of one
cleared order. `OrderRuns` and `KillSwitchRuns` prove that an order call, the startup reconcile and a whole close of an
account, up to whatever error ends them, are runs of the protocol. `OrderReach` names the kinds of steps in such a run
and carries over the results that hold only without some kind: `ExecuteKeeps`, `StartupKeeps`, `CloseKeeps` and
`PaperCloseKeeps` state what each call keeps. `RiskRules` and `RiskPolicyService` are the policy and override tables.

**Calls in full.** The methods and the runs share specification functions. What those functions yield is stated a second
time without them, in the predicates that end in `InFull`: statuses, error codes, columns, amounts and times are written
out, and the `Exactly` lemmas and the methods' own postconditions tie every call to them. `PlacedInFull`,
`ExecutedInFull` and `RetriedInFull` describe an order call, `CloseLaws` the startup reconcile and a close, `SetInFull`
and its neighbours the policy tables, `HandledInFull` and `RecoveryInFull` the approval path; the independent cores have
theirs.

**Approval.** `Approval` composes the pending-order records, the approval handlers and the restart recovery with the
order protocol; `ApprovalSafety` relates the two tables over all interleavings; `ApprovalService` holds the methods and
`ApprovalRuns` proves that a handler and the recovery are runs of the composed machine. `ApprovalOrders` projects such
runs to the order protocol, and `AlarmOrders` puts the alerts in front of them.

**The independent cores.** `AlarmTrigger` (dedup and cooldown), `IntervalStore` (immutable analysis history),
`HashChain`, `EmergencyLog` and `EmergencyRuns` (tamper evidence and exactly-once merging), `Swings`, `SwingLaws` and
`StructureScan` (market structure), `Liquidity` (first-fit clustering), `Sizing` and `OrderValidation` (arithmetic and guards) and
`Screener` (filter AST and its two evaluators).

**What is assumed.** A transaction of the database writer is atomic. The exchange is truthful (`OrderRules.TruthfulAbout`,
`OrderRules.TruthfulCancelAbout`): it reports a terminal status only when it is so, an order that is not there to be
cancelled is not open, one that a query does not find was not filled either, and a refused one is neither open nor filled;
every HTTP error answer counts as a refusal, as in `data/order_broker.py:201-208`. A request that fails says nothing, and
a submission without an answer either took effect or never will. An OCO list is the exception: `data/order_broker.py`
reads a finished one as FILLED, and the model keeps that. A client order id determines its idempotency key. The hash is
injective and its digests hold no `|`; `HashChain.IdealHashExists` shows that such functions exist. Numbers are reals and
unbounded integers.

**Where code and documentation differ, the model follows the code.**

- `README.md:32` and `README.md:147` of the repository call real trading a one-way unlock, but
  `storage/accounts.py:390-428` switches an account back to paper. Together with the paper branch of the kill switch
  (`storage/orders.py:1763-1766`), which marks resting rows CANCELED without asking the exchange, this is the one way
  in which a terminal row can have an open order; `OrderSafety.TerminalIdleExactly` makes that exact.
- The comments of `storage/orders.py:1513-1516` want UNKNOWN and `closed=False` for an uncertain cancellation, but a
  follow-up query that fails with a canonical error reads as "not found" and the row becomes CANCELED
  (`storage/orders.py:1549-1550`, `1654-1658`); a network timeout is such an error (`data/order_broker.py:210-215`).
  `OrderRules.DoubtIsReportedExactly` and `OrderRules.CancelTellsTruthExactly` give the exact conditions for one
  cancellation, `KillSwitchRuns.CloseKeeps` for a close and `OrderTruth.TruthfulRowsExactly` for runs;
  `Witnesses.UnverifiedCancelHappens` is a close that fails them.
- `data/order_broker.py:365-371` says that a finished OCO list may have been cancelled, and reports FILLED. The same
  lemmas take this as their second case; `Witnesses.MisreadOcoHappens` is a row that reads FILLED for a cancelled OCO.
- The approval path reserves keys that start with `pending:`, but nothing stops an outside call from using one;
  `ApprovalSafety.RejectionBrokenExactly` and `ApprovalSafety.AlwaysQuietExactly` say exactly what then breaks.
- The comment at `storage/orders.py:1813-1815` says that the kill switch does not sell blindly twice, but a canonical
  error of its query reads as "nothing there" and a second sale follows (`storage/orders.py:1823-1824`);
  `KillSwitchRules.SecondSaleExactly` and `KillSwitchRuns.DoubleSaleExactly` give the exact conditions and
  `Witnesses.TwoSalesHappen` such a state.
- An OCO placement is recorded with the broker's result but answered with the row as it was inserted
  (`storage/orders.py:743-771`); `OrderPlacing.RepliedReport` keeps that.
- `pa/swings.py:10-15` lists the conditions for an event by the close alone; the code also wants the previous close on
  the other side of the level (`pa/swings.py:110`, `120`), and that is what `SwingLaws.EventExactlyAtCrossing` states.
- `pa/liquidity.py:4-6` speaks of the price difference between swings; the code compares with the running mean of the
  cluster (`pa/liquidity.py:42-43`).

## Model

| member | source | states |
|---|---|---|
| OrderSafety.AtMostOneSubmission | src/rasattrading_mcp/storage/orders.py:1136-1147 | over every run of placing, retrying, timing out, crashing, restarting, reconciling and closing, no (account, idempotency key) is submitted twice, and every submitted key has a row |
| OrderSafety.DurableBeforeSubmission | src/rasattrading_mcp/storage/orders.py:1136-1147 | whenever a submission can happen, its row is already stored, unsettled and never submitted before |
| OrderSafety.RowsGrowRun | src/rasattrading_mcp/storage/orders.py:344-347 | over every run no row disappears, its notional, symbol and origin never change, and a terminal row never changes again |
| OrderSafety.IdleExactly | src/rasattrading_mcp/storage/orders.py:1758-1766 | with a truthful exchange, a step leaves a terminal row with an order that may still fill if and only if it is the kill switch closing a working order without asking |
| OrderSafety.TerminalIdleExactly | src/rasattrading_mcp/storage/orders.py:1148-1181 | through a whole run, terminal rows have no open order at the exchange if and only if the run holds no such blind cancellation |
| OrderSafety.OpenOrdersAreCounted | src/rasattrading_mcp/storage/orders.py:176-205 | without a blind cancellation every order the exchange may still fill has a row that the exposure counts |
| OrderTruth.TruthfulRowsExactly | src/rasattrading_mcp/storage/orders.py:1652-1698 | through a whole run every stored status is what happened to the order (FILLED was filled; CANCELED, REJECTED and EXPIRED were not and never will be) if and only if the run never writes an unverified cancellation over a filled order, never reads a cancelled OCO as FILLED, and never closes a row without asking while its order is open or filled |
| Witnesses.BlindCancelHappens | src/rasattrading_mcp/storage/orders.py:1763-1766 | a reachable state in which a row reads CANCELED while the exchange may still fill its order |
| Witnesses.UnverifiedCancelHappens | src/rasattrading_mcp/storage/orders.py:1549-1550 | a close that reports closed without a fault and leaves a row CANCELED whose order was filled |
| Witnesses.MisreadOcoHappens | src/rasattrading_mcp/data/order_broker.py:368-371 | a reachable state in which the row of a cancelled OCO reads FILLED |
| OrderReach.KeepsIdle | src/rasattrading_mcp/storage/orders.py:1148-1181 | a run without a blind cancellation keeps terminal rows idle, from any state |
| OrderReach.KeepsTruth | src/rasattrading_mcp/storage/orders.py:1148-1181 | a run without a lying write keeps every stored status true, from any state |
| OrderReach.KeepsCeiling | src/rasattrading_mcp/storage/orders.py:997-1004 | a run that spends no override and sets no policy keeps the exposure ceiling of every account, from any state |
| OrderExposure.ExposureCeiling | src/rasattrading_mcp/storage/orders.py:997-1004 | from any reachable idle state within the cap, with the policy kept and no override spent, the summed NEW, PARTIALLY_FILLED and UNKNOWN notional outside the kill switch stays at most max_aggregate_exposure in every later state |
| OrderExposure.EveryOrderIsCovered | src/rasattrading_mcp/storage/orders.py:1006-1045 | over every run each order outside the kill switch met the caps it was checked against or owns an applied override naming its key and that policy version; no override serves two orders, so over-cap orders never outnumber applied overrides |
| OrderRules.CancelSettlesOrReports | src/rasattrading_mcp/storage/orders.py:1606-1698 | after a cancellation the row is not resting, and it is UNKNOWN exactly when an error is reported |
| OrderRules.StatusTrueExactly | src/rasattrading_mcp/storage/orders.py:1148-1181 | what each stored status claims about the order |
| OrderRules.TruthfulExactly | src/rasattrading_mcp/data/order_broker.py:351-371 | what is assumed of the answers about an order: FILLED only of filled orders and of ended OCO lists, the other final statuses only of orders that ended unfilled or were never taken, nothing about the unsettled ones |
| OrderRules.CancelledExactly | src/rasattrading_mcp/storage/orders.py:1606-1698 | the columns after each answer to a cancellation and whether it is a fault, answer by answer |
| OrderRules.DoubtIsReportedExactly | src/rasattrading_mcp/storage/orders.py:1513-1516 | a doubtful cancellation is recorded as UNKNOWN and reported if and only if it is not a failed follow-up query |
| OrderRules.CancelTellsTruthExactly | src/rasattrading_mcp/storage/orders.py:1606-1698 | for every truthful answer the recorded status is what happened to the order if and only if it is neither a failed query over a filled order nor the list of a cancelled OCO read as FILLED |
| OrderCalls.OrderService.OpenOrderNotional | src/rasattrading_mcp/storage/orders.py:177-184 | the loop sums exactly the account's NEW, PARTIALLY_FILLED and UNKNOWN notional |
| OrderCalls.OrderService.HoldingsValue | src/rasattrading_mcp/storage/orders.py:195-205 | the value of the non-quote holdings, or STALE_DATA exactly when one of them has no fresh price |
| OrderCalls.OrderService.EnforceCapsOrOverride | src/rasattrading_mcp/storage/orders.py:1006-1045 | within the caps nothing is spent; an overridable refusal spends the eldest fitting override if there is one; otherwise the refusal is raised and no table changes |
| OrderCalls.OrderService.PlaceAndRecord | src/rasattrading_mcp/storage/orders.py:1047-1211 | a refusal by the last validation or a failing insert leaves no row; otherwise one row made of the draft's columns is added: PAPER at once for a paper order, NEW when an error ends the call, and else the broker's whole report, REJECTED, UNKNOWN or what the query after a timeout found; the reply carries that row, an accepted OCO the row as inserted |
| OrderPlacing.PlacedExactly | src/rasattrading_mcp/storage/orders.py:1047-1278 | the same of the specification functions, answer by answer, with every status and column written out |
| OrderCalls.OrderService.HandleExisting | src/rasattrading_mcp/storage/orders.py:1281-1341 | a settled row, or any row of a paper account, is answered as stored; otherwise the row takes over the queried state when there is one, and stays as it is when the query says nothing or ends the call |
| OrderCalls.OrderService.ExecuteOne | src/rasattrading_mcp/storage/orders.py:832-938 | one order call in full, for every combination of outside answers and every point at which an error ends it: retry, preflight refusal, STALE_DATA, refusal by the caps with its code, spending of the eldest fitting override, and the recorded row |
| OrderCalls.ExecutedExactly | src/rasattrading_mcp/storage/orders.py:832-1045 | every outcome of an order call meets that description, in which caps, override, statuses and codes are written out |
| OrderExposure.TotalsExactly | src/rasattrading_mcp/storage/orders.py:176-184 | a row of the account adds its whole notional to the open total while it is NEW, PARTIALLY_FILLED or UNKNOWN, and any other row nothing |
| OrderCalls.HeldExactly | src/rasattrading_mcp/storage/orders.py:195-205 | a balance line adds free times price unless it is the quote asset or empty |
| OrderRuns.ExecuteIsARun | src/rasattrading_mcp/storage/orders.py:832-1004 | every outcome of an order call, error exits included, is a run of the protocol: it takes the lock, spends an override only if the risk tables show it and writes no untrue status unless it misreads an OCO |
| OrderRuns.ExecuteKeeps | src/rasattrading_mcp/storage/orders.py:832-1004 | an order call keeps terminal rows idle, every exposure ceiling unless it spends an override, and stored statuses true if and only if it misreads no OCO |
| OrderCalls.OrderService.ReconcileOpenOrders | src/rasattrading_mcp/storage/orders.py:1345-1444 | every NEW, PARTIALLY_FILLED or UNKNOWN row of a real account is queried once: a failed query changes nothing, not found and UNKNOWN keep the fill columns, any other report is taken over whole; the summary counts exactly the scanned, the confirmed, the failed and the written rows |
| CloseLaws.StartupExactly | src/rasattrading_mcp/storage/orders.py:1376-1444 | the same of the specification functions, with statuses and counts written out |
| KillSwitchRuns.StartupIsARun | src/rasattrading_mcp/storage/orders.py:1376-1442 | reconciling any set of unsettled rows at startup, in any order, is a run of startup steps only |
| KillSwitchRuns.StartupKeeps | src/rasattrading_mcp/storage/orders.py:1376-1442 | against a truthful exchange the startup reconcile keeps terminal rows idle, every exposure ceiling, and stored statuses true if and only if it reads no cancelled OCO as FILLED |
| OrderCalls.OrderService.CancelTargets | src/rasattrading_mcp/storage/orders.py:1700-1766 | the resting rows of the account, as far as the call gets, and no other get their cancellation result, and the faults listed are exactly the failed ones |
| OrderCalls.OrderService.CancelForeign | src/rasattrading_mcp/storage/orders.py:1704-1762 | the faults for exchange orders without a local row are exactly the failed single and bulk cancellations |
| OrderCalls.OrderService.SellOne | src/rasattrading_mcp/storage/orders.py:1813-1846 | the amount sold is the largest whole number of lot steps within the holding; an unsettled earlier close sale of the symbol is queried and takes over the answer, and stands when it is open, unclear or filled; a new one follows only when there is none, the query says nothing, or it failed; an uncaught error of the query ends the call with the table unchanged |
| OrderCalls.OrderService.CloseOne | src/rasattrading_mcp/storage/orders.py:1504-1853 | the whole kill switch of one account in full: every cancelled row, every fault, every sale with its amount and value, every skipped line and the closed flag, for every point at which an error ends it |
| CloseLaws.CloseExactly | src/rasattrading_mcp/storage/orders.py:1504-1853 | however a close ends, each row it cancels ends as its answer says, each new row is the sale of one balance line (asset + USDT, a whole number of steps, at least the minimum, within the holding and less than a step short of it, notional quantity times price), lines are listed in order and as skipped exactly when nothing of them can be sold, and closed holds exactly when there is no fault and every entry is a FILLED sale |
| CloseLaws.SoldExactly | src/rasattrading_mcp/storage/orders.py:1813-1846 | one sale, with the reconciliation of an earlier one, case by case with statuses and codes written out |
| CloseLaws.PlanExactly | src/rasattrading_mcp/storage/orders.py:1792-1811 | from the line alone: passed over exactly for the quote asset, an empty line or an unknown symbol; skipped when there is no price, no filters or no whole number of steps within the holding that reaches the minimum; else the largest such amount is offered |
| KillSwitchRules.CloseGrows | src/rasattrading_mcp/storage/orders.py:1504-1853 | however a close ends, no row is lost, rewritten or reopened, other accounts are untouched, and new rows are close sales |
| KillSwitchRules.CloseSettles | src/rasattrading_mcp/storage/orders.py:1606-1698 | a row resting at entry is terminal afterwards unless its cancellation was reported as a fault; if it rests again the report lists it with the status just queried |
| KillSwitchRules.ClosedMeansClosed | src/rasattrading_mcp/storage/orders.py:1848-1853 | closed implies a real account, no faults, every listed sale FILLED in the table, and no NEW or PARTIALLY_FILLED row of the account at all |
| KillSwitchRules.EveryHoldingIsListed | src/rasattrading_mcp/storage/orders.py:1792-1811 | the sales list has exactly one entry per sellable holding of the universe, in balance order; others are passed over |
| KillSwitchRules.SecondSaleExactly | src/rasattrading_mcp/storage/orders.py:1813-1846 | over an unsettled close sale of the symbol a second one is written if and only if the query about it says nothing, fails or reports failure and nothing else stops the new one; while the exchange confirms the earlier sale only its row changes |
| KillSwitchRuns.DoubleSaleExactly | src/rasattrading_mcp/storage/orders.py:1818-1846 | over an earlier close sale that the exchange holds open or has filled, a second one is written if and only if the query about it fails and nothing else stops the new one |
| Witnesses.TwoSalesHappen | src/rasattrading_mcp/storage/orders.py:1823-1824 | a close whose cancellation failed and whose query said nothing leaves two close sales of one symbol that both work at the exchange |
| KillSwitchRuns.CancellingIsARun | src/rasattrading_mcp/storage/orders.py:1758-1762 | cancelling all resting rows of an account, in any order, is a run of the protocol that lies only where a cancellation does |
| KillSwitchRuns.PaperCancellingIsARun | src/rasattrading_mcp/storage/orders.py:1763-1766 | closing the rows of a paper account, in any order, is a run of the protocol, blind only if some of the orders may still fill and untrue only if some were filled |
| KillSwitchRuns.PaperCloseKeeps | src/rasattrading_mcp/storage/orders.py:1763-1766 | a paper close keeps terminal rows idle if and only if none of its orders may still fill, and statuses true if and only if none may or was |
| KillSwitchRuns.SellIsARun | src/rasattrading_mcp/storage/orders.py:1813-1846 | selling one holding, with the reconciliation of an earlier sale, is a run of the protocol |
| KillSwitchRuns.SellRunIsARun | src/rasattrading_mcp/storage/orders.py:1792-1846 | selling any list of holdings against an exchange that is truthful at each line is a run of the protocol |
| KillSwitchRuns.CloseIsARun | src/rasattrading_mcp/storage/orders.py:1504-1853 | whatever one close of a real account does, to whatever point it gets and whichever orders the exchange ends meanwhile, is a run of the protocol without a blind cancellation, a spent override or a policy change, and without a lie unless the close writes one |
| KillSwitchRuns.CloseKeeps | src/rasattrading_mcp/storage/orders.py:1504-1853 | a real close keeps terminal rows idle, every exposure ceiling, and stored statuses true if and only if it neither takes a failed query for a cancellation of a filled order nor reads a cancelled OCO as FILLED |
| KillSwitchRuns.ClosedMeansNoneAlive | src/rasattrading_mcp/storage/orders.py:1700-1762 | when every open order of the account is a resting row, is listed by the exchange or ends by itself, closed means that none of them is open any more, the orders behind UNKNOWN rows included |
| RiskRules.CapsExactly | src/rasattrading_mcp/risk.py:49-94 | an order is within the policy if and only if it meets every limit that is set, and an override can lift exactly the refusals of otherwise sound orders |
| RiskRules.RefusalsExactly | src/rasattrading_mcp/risk.py:49-94 | which code a refusal carries, limit by limit |
| RiskRules.SetExactly | src/rasattrading_mcp/storage/risk_policy.py:201-296 | setting a policy field by field: unset by its clear flag, else given, else stored; other accounts stay; on a first set or a real change, and only then, the version rises by one and the account's reserved overrides of other versions are closed |
| RiskRules.SetPolicyTwice | src/rasattrading_mcp/storage/risk_policy.py:201-264 | setting the same patch again changes nothing, neither the version nor an override |
| RiskPolicyTables.RiskPolicyService.SetRiskPolicy | src/rasattrading_mcp/storage/risk_policy.py:172-296 | the same as a transaction: each cap is unset by its clear flag, else the given one, else the stored one; the version rises and stale reserved overrides are closed exactly on a first set or a real change; a non-positive amount or an unknown account changes nothing |
| RiskPolicyTables.RiskPolicyService.ReconcileStaleOverrides | src/rasattrading_mcp/storage/risk_policy.py:514-540 | closes exactly the account's reserved overrides of another version |
| RiskPolicyTables.RiskPolicyService.CreateOverride | src/rasattrading_mcp/storage/risk_policy.py:316-426 | a new key is added reserved, stamped with the account's current version; a known key is answered and changes nothing; errors change nothing |
| RiskPolicyTables.RiskPolicyService.ConsumeOverride | src/rasattrading_mcp/storage/risk_policy.py:428-491 | spends exactly the reserved, unexpired override of that version that was created first (ties by id), marks it with the order's key and the time, and spends nothing exactly when there is none |
| RiskPolicyTables.RiskPolicyService.ReconcileOverrides | src/rasattrading_mcp/storage/risk_policy.py:542-567 | closes exactly the overdue reserved overrides and counts them |
| RiskRules.SpentExactly | src/rasattrading_mcp/storage/risk_policy.py:456-491 | a row is the one to spend if and only if it is reserved, fits account and version, is not expired and comes before every other such row |
| RiskRules.CreatedExactly | src/rasattrading_mcp/storage/risk_policy.py:355-388 | a created override, column by column |
| RiskRules.ExpiredExactly | src/rasattrading_mcp/storage/risk_policy.py:542-567 | exactly the reserved rows that have expired are closed, and counted |
| RiskRules.RiskStepKeepsInv | src/rasattrading_mcp/storage/risk_policy.py:201-264 | every reserved override keeps carrying its account's current policy version, 0 without a policy |
| RiskRules.RiskStepIsFramed | src/rasattrading_mcp/storage/risk_policy.py:201-264 | the version of an account rises by one exactly on a first set or a real change of its caps, settled overrides never change, no override is deleted |
| RiskRules.RiskHistory | src/rasattrading_mcp/storage/risk_policy.py:355-388 | the same over whole runs: versions never fall and settled overrides stay as they are |
| RiskRules.ConsumeAtCurrentVersion | src/rasattrading_mcp/storage/risk_policy.py:456-471 | consuming at the current version succeeds exactly when any unexpired reserved override of the account exists |
| RiskRules.StaleVersionFindsNothing | src/rasattrading_mcp/storage/risk_policy.py:456-471 | with an outdated version no override can be spent |
| OrderExposure.OverridesStayCurrent | src/rasattrading_mcp/storage/risk_policy.py:355-388 | over every run of the order path, consumption included, a reserved override carries its account's current policy version, versions never fall and a settled override never changes |
| OrderExposure.SpendExactly | src/rasattrading_mcp/storage/orders.py:1006-1045 | in every reachable state an order over its caps can spend an override if and only if the policy it was weighed against is still current and the account has any unexpired reserved override |
| ApprovalSafety.ApprovalSafe | src/rasattrading_mcp/pa/alarms.py:731-904 | over every interleaving and restart a pending order is claimed at most once, executed implies that the row under pending: and its id is FILLED or PAPER, and an executed order id implies executed |
| ApprovalSafety.FinalRun | src/rasattrading_mcp/pa/alarms.py:762-810 | executed, rejected and reconcile_required are never left and the record never changes again |
| ApprovalSafety.RejectionBrokenExactly | src/rasattrading_mcp/daemon/handlers.py:414-508 | an act of any kind breaks the claim that a record rejected after its claim has no NEW, PARTIALLY_FILLED or UNKNOWN order if and only if it records a real order under the key of such a record, or files a rejection while the row under the record's own key is unsettled |
| ApprovalSafety.AlwaysQuietExactly | src/rasattrading_mcp/daemon/handlers.py:414-508 | the claim holds throughout a run if and only if the run holds no act of these two families |
| ApprovalSafety.RejectedMeansClosed | src/rasattrading_mcp/daemon/handlers.py:414-508 | it is enough that no outside call asks for a pending: key |
| Witnesses.RejectionCanBreak | src/rasattrading_mcp/daemon/handlers.py:417-428 | a reachable state in which a rejected record has a live order under its key, recorded after the rejection |
| Witnesses.RejectionCanFollow | src/rasattrading_mcp/daemon/handlers.py:430-443 | the same with the order recorded first, while the record was being executed |
| ApprovalCalls.AlarmService.ApproveAndClaim | src/rasattrading_mcp/pa/alarms.py:731-760 | only an awaiting record is claimed, once, and any other state is refused unchanged |
| ApprovalCalls.AlarmService.CompletePendingExecution | src/rasattrading_mcp/pa/alarms.py:762-783 | only an executing record becomes executed, with the given id |
| ApprovalCalls.AlarmService.FailPendingExecution | src/rasattrading_mcp/pa/alarms.py:785-810 | only an executing record becomes rejected or reconcile_required |
| ApprovalCalls.AlarmService.ReconcilePendingExecutions | src/rasattrading_mcp/pa/alarms.py:812-904 | every executing record is judged by the order row under its own key: executed with the exchange's id for FILLED or PAPER, rejected for REJECTED, CANCELED or EXPIRED, reconcile_required otherwise or, without a row, after 300 seconds; all others stay, and each count of the summary is the number of records that ended so |
| ApprovalCalls.RecoveryExactly | src/rasattrading_mcp/pa/alarms.py:843-904 | the same of the specification functions, with statuses and counts written out |
| ApprovalCalls.AlarmService.ApproveHandler | src/rasattrading_mcp/daemon/handlers.py:376-508 | a claimed record ends executed exactly for a FILLED or PAPER order, with the exchange's id or else the row's, rejected exactly for a REJECTED, CANCELED or EXPIRED one or an error that is not transient, reconcile_required otherwise; the answer is the id or the code of that outcome; a lost claim or failed check changes nothing |
| ApprovalCalls.HandledExactly | src/rasattrading_mcp/daemon/handlers.py:414-508 | the same of the specification function, status by status and code by code |
| ApprovalCalls.ActsExactly | src/rasattrading_mcp/pa/alarms.py:731-904 | what every act of a run does to the records: each moves its own as the methods do, every other record stays |
| ApprovalRuns.HandlerIsItsActs | src/rasattrading_mcp/daemon/handlers.py:414-508 | claim, call and filing of a handler are own acts of the approval state machine: for every outcome of the call, raised errors included, they lead to exactly the record that the handler leaves and the order side that the order call leaves |
| ApprovalRuns.HandlerKeeps | src/rasattrading_mcp/daemon/handlers.py:414-508 | a handler keeps the invariants of the records, rejected records closed, terminal rows idle, every exposure ceiling unless an override is spent, and stored statuses true unless it misreads an OCO |
| ApprovalOrders.OrdersOfRun | src/rasattrading_mcp/daemon/handlers.py:414-508 | seen from the orders, every run of the approval path is a run of the order protocol |
| ApprovalOrders.OneSubmissionPerRecord | src/rasattrading_mcp/daemon/handlers.py:414-428 | over every run of the approval path each key is submitted at most once, and different pending orders have different keys |
| ApprovalRuns.RecoveryIsItsActs | src/rasattrading_mcp/pa/alarms.py:843-895 | recovering any set of executing records at restart, in any order, is a run of recovery acts |
| AlarmTrigger.AlarmEngine.MaybeTrigger | src/rasattrading_mcp/pa/alarms.py:271-322 | an alert whose cooldown has passed, or that has none and is not stored as cooling, triggers on a new window: one trigger, one pending order if it has an order spec, and its next state, written together; anything else changes nothing |
| AlarmTrigger.MatchedExactly | src/rasattrading_mcp/pa/alarms.py:256-322 | the same of the specification function, with states and times written out |
| AlarmTrigger.Rearms | src/rasattrading_mcp/pa/alarms.py:256-269 | after a trigger, a match with a new window triggers again as soon as the cooldown is over, and at once without one |
| AlarmTrigger.TriggersAreSpaced | src/rasattrading_mcp/pa/alarms.py:256-322 | over every run two triggers of one alert have different keys and are at least its cooldown apart, and an alert with an order spec has as many pending orders as triggers |
| AlarmOrders.OrdersOfAlertsAreSpaced | src/rasattrading_mcp/pa/alarms.py:271-322 | from matched conditions to the exchange: each raised order has its own record and key, each key is submitted at most once, an alert raises at most one order per trigger, and the orders of one alert are raised at least its cooldown apart |
| IntervalStore.HistoryTable.Store | src/rasattrading_mcp/pa/analysis.py:39-119 | a store changes its own series in full as the code does (same revision, superseded open or closed revision, first record, forward, backfill), with every end written out, and leaves the others alone |
| IntervalStore.StoredExactly | src/rasattrading_mcp/pa/analysis.py:61-119 | the same of the specification function, case by case, from the newest record of the bar, the topmost open record and the next recorded start |
| IntervalStore.HistoryTable.ReadCurrent | src/rasattrading_mcp/pa/analysis.py:122-132 | reads the one open record, and nothing exactly when the history is empty |
| IntervalStore.StoreKeeps | src/rasattrading_mcp/pa/analysis.py:61-119 | exactly one open record, with the greatest start and the latest revision there, and closed records the right way round |
| IntervalStore.StorePreserves | src/rasattrading_mcp/pa/analysis.py:61-119 | records are never deleted or rewritten; an open end may be closed once |
| IntervalStore.NothingIsLost | src/rasattrading_mcp/pa/analysis.py:61-119 | over every run each record stays at its place as it was written, its open end closed at most once |
| IntervalStore.StoreTwice | src/rasattrading_mcp/pa/analysis.py:63-70 | storing the same thing twice is storing it once |
| IntervalStore.LastWriteShows | src/rasattrading_mcp/pa/analysis.py:63-84 | every bar ever written shows, as its latest revision, the last thing written for it |
| IntervalStore.EveryHistoryIsKept | src/rasattrading_mcp/pa/analysis.py:39-119 | over every sequence of stores the history is well kept and its latest revisions leave no gap from the first bar on |
| IntervalStore.DisjointExactly | src/rasattrading_mcp/pa/analysis.py:107-117 | a store keeps the latest revisions disjoint if and only if it is not a backfill of a new bar between recorded starts |
| IntervalStore.AlwaysDisjointExactly | src/rasattrading_mcp/pa/analysis.py:107-117 | latest revisions never overlap during a run if and only if the run never backfills into the middle |
| IntervalStore.InsideHappens | src/rasattrading_mcp/pa/analysis.py:107-117 | a run of three stores whose latest revisions overlap |
| IntervalStore.OrderedStoresTile | src/rasattrading_mcp/pa/analysis.py:99-106 | stores in non-decreasing order tile the timeline: each time from the first bar on is covered by exactly one latest revision |
| HashChain.PayloadIsInjective | src/rasattrading_mcp/storage/audit.py:47-49 | the joined text fixes all six fields when actor and action hold no bar, whatever the details hold |
| HashChain.PayloadUniqueExactly | src/rasattrading_mcp/storage/audit.py:47-49 | the text of an entry belongs to no other entry if and only if its actor, action and details all hold no bar |
| HashChain.PayloadExactly | src/rasattrading_mcp/storage/audit.py:47-49 | the hashed text is previous hash, number, actor, action, details and time, joined by bars |
| HashChain.NextExactly | src/rasattrading_mcp/storage/audit.py:64-91 | the next row is numbered and chained after the last one or from GENESIS, and hashed over its fields |
| HashChain.VerifiesExactly | src/rasattrading_mcp/storage/audit.py:104-128 | a log has no broken rows if and only if it is a chain |
| HashChain.AppendKeepsChain | src/rasattrading_mcp/storage/audit.py:79-91 | appending to a log that verifies gives a log that verifies |
| HashChain.LastHashFixesLog | src/rasattrading_mcp/storage/audit.py:104-128 | two non-empty logs that verify and end in the same hash are identical row for row |
| EmergencyLogs.AuditLog.Append | src/rasattrading_mcp/storage/audit.py:64-91 | adds exactly the next chained row |
| EmergencyLogs.AuditLog.Verify | src/rasattrading_mcp/storage/audit.py:104-130 | reports every deviation row by row, and nothing exactly for an intact chain |
| EmergencyLogs.EmergencyLog.Append | src/rasattrading_mcp/storage/emergency_log.py:28-51 | adds the next chained line, or fails untouched after a corrupt line |
| EmergencyLogs.EmergencyLog.Verify | src/rasattrading_mcp/storage/emergency_log.py:72-93 | reports corrupt lines and chain breaks, and nothing exactly for an intact file |
| EmergencyLogs.AuditLog.ReconcileEmergencyLog | src/rasattrading_mcp/storage/emergency_log.py:115-161 | one audit row and one mark per unmarked entry, in log order, or nothing at all when two of them share a hash |
| EmergencyLogs.MergedExactly | src/rasattrading_mcp/storage/emergency_log.py:115-161 | the merged rows, one by one: chained after the audit log, by and for the emergency stop, with the entry as details |
| EmergencyLogs.UnmergedExactly | src/rasattrading_mcp/storage/emergency_log.py:128-138 | exactly the entries without a mark are merged, in log order |
| EmergencyRuns.ReconciledExactlyOnce | src/rasattrading_mcp/storage/emergency_log.py:115-161 | after any interleaving of appends and restarts, the next restart leaves exactly one audit row per emergency entry in log order, a further one writes nothing, and both logs verify |
| Swings.DetectSwings | src/rasattrading_mcp/pa/swings.py:54-67 | the loop finds exactly the fractal highs and lows, in order |
| StructureScan.DetectStructure | src/rasattrading_mcp/pa/swings.py:70-150 | the one-pass scan yields, from the candles and their pivots alone, the labelled swings, the events and the trend as described by StructureExactly |
| SwingLaws.PivotsExactly | src/rasattrading_mcp/pa/swings.py:54-67 | a pivot is listed if and only if its bar is strictly extreme in its full window |
| SwingLaws.EventExactlyAtCrossing | src/rasattrading_mcp/pa/swings.py:102-129 | there is an event at a bar if and only if its close crosses the level of the latest pivot strictly before it, and it carries that level |
| SwingLaws.EventsFollowTrend | src/rasattrading_mcp/pa/swings.py:107-129 | the trend is always known at an event; a BOS agrees with it, a CHoCH reverses it |
| SwingLaws.ChochExactly | src/rasattrading_mcp/pa/swings.py:110-127 | a later event is a CHoCH if and only if it changes the direction of the previous event |
| SwingLaws.FirstEventExactly | src/rasattrading_mcp/pa/swings.py:147-148 | the first event is a CHoCH if and only if it is upwards after a first high or downwards after a first low |
| SwingLaws.TrendExactly | src/rasattrading_mcp/pa/swings.py:102-150 | the reported trend is unknown if and only if no high or no low is a pivot; else it is the direction of the last event, and before any event up exactly when the first pivot is a low |
| SwingLaws.LabelsExactly | src/rasattrading_mcp/pa/swings.py:131-145 | a swing is labelled by comparison with the latest earlier pivot of its kind, and not at all when there is none |
| SwingLaws.EventsExactly | src/rasattrading_mcp/pa/swings.py:102-129 | one event per bar whose close leaves the range of the latest high and the latest low before it, with the broken price as its level |
| SwingLaws.StructureExactly | src/rasattrading_mcp/pa/swings.py:70-150 | all parts of the reported structure at once, with the pivots themselves as the extreme bars in order |
| SwingLaws.ChochsAlternate | src/rasattrading_mcp/pa/swings.py:110-127 | CHoCH directions strictly alternate |
| SwingLaws.StructureIsConsistent | src/rasattrading_mcp/pa/swings.py:102-148 | all of this for every candle list, with strictly increasing event indices |
| SwingLaws.NoRepaint | src/rasattrading_mcp/pa/swings.py:54-148 | for any extension of a list of n bars the old labelled swings are a prefix of the new ones and the events with index at most n - lookback are identical |
| Liquidity.ClusterSwings | src/rasattrading_mcp/pa/liquidity.py:35-49 | the nested loops compute first-fit clusters of the sorted swings and keep those with two or more |
| Liquidity.KeptExactly | src/rasattrading_mcp/pa/liquidity.py:49 | exactly the clusters with two or more swings are kept, in order |
| Liquidity.ClustersExactly | src/rasattrading_mcp/pa/liquidity.py:38-48 | one more swing joins the first cluster that takes it, at its end, or opens a new last one |
| Liquidity.FitsExactly | src/rasattrading_mcp/pa/liquidity.py:42-43 | a cluster takes a price within the given per cent of its mean |
| Liquidity.SortKeepsOrder | src/rasattrading_mcp/pa/liquidity.py:37 | the sort by price is stable |
| Liquidity.FirstFitIsContiguous | src/rasattrading_mcp/pa/liquidity.py:35-49 | over ascending positive prices searching all clusters equals trying only the last one, and the clusters are consecutive blocks that concatenate to the sorted list |
| Liquidity.ClustersAreOrdered | src/rasattrading_mcp/pa/liquidity.py:35-49 | every price of a cluster is strictly below every price of a later one despite the moving mean |
| Liquidity.BandHoldsItsOwn | src/rasattrading_mcp/pa/liquidity.py:52-67 | a swing of the kind lies in a cluster's band if and only if it belongs to that cluster |
| Liquidity.ZoneExactly | src/rasattrading_mcp/pa/liquidity.py:52-67 | a zone spans the least and greatest price of its cluster and carries its count and latest index |
| Liquidity.LatestIndex | src/rasattrading_mcp/pa/liquidity.py:59 | a zone is formed at the index of its latest swing |
| Liquidity.ClusteredItems | src/rasattrading_mcp/pa/liquidity.py:37 | what is clustered is the ascending rearrangement of the swings of the kind |
| Sizing.SizeIsSafe | src/rasattrading_mcp/position_sizing.py:138-173 | a returned size is positive, inside the lot limits, a whole number of steps, affordable with its fee and within one step of the unrounded optimum |
| Sizing.SizeRespectsRisk | src/rasattrading_mcp/position_sizing.py:144-151 | the loss at the stop is at most the budget plus 1e-9 of a step's loss |
| Sizing.SizeIsMaximal | src/rasattrading_mcp/position_sizing.py:148-151 | no larger whole number of steps stays within the optimum |
| Sizing.BalanceCheckCatchesRounding | src/rasattrading_mcp/position_sizing.py:172-173 | the final balance check fires only when the epsilon of the rounding carried the size above the optimum |
| Sizing.RoundingIsIdempotent | src/rasattrading_mcp/position_sizing.py:90-94 | rounding twice is rounding once |
| Sizing.OptimumExactly | src/rasattrading_mcp/position_sizing.py:144-147 | a quantity is within the optimum if and only if its loss at the stop is within the risk budget and its cost with the fee within the balance |
| Sizing.SizedExactly | src/rasattrading_mcp/position_sizing.py:119-151 | which requests are refused before the quantity is known, and that the lot-rounded optimum is what then has to pass the guards |
| Sizing.CheckedExactly | src/rasattrading_mcp/position_sizing.py:153-173 | the guards on the quantity, limit by limit, with the code of each |
| OrderValidation.AcceptedExactly | src/rasattrading_mcp/storage/order_validation.py:74-221 | an order is accepted if and only if it is well formed, fits the lot and price grids and is worth the minimum; and which of the two errors a refusal carries |
| OrderValidation.NotionalExactly | src/rasattrading_mcp/storage/order_validation.py:164-165 | the notional that is returned |
| OrderValidation.AlignedExactly | src/rasattrading_mcp/storage/order_validation.py:179-185 | comparing with the rounded quotient decides exactly whether a value lies within the tolerance of a whole multiple |
| OrderValidation.PreValidationIsWeaker | src/rasattrading_mcp/storage/order_validation.py:90-93 | the call without filters and market refuses nothing the full call accepts |
| OrderValidation.SizedOrderIsAccepted | src/rasattrading_mcp/storage/order_validation.py:167-211 | a size from the sizer is accepted as a market order exactly when the symbol's maxima are finite, and as a limit order when moreover the entry is on the tick grid |
| Screener.ValidateTwice | src/rasattrading_mcp/pa/screener.py:95-133 | validating an already validated node changes nothing |
| Screener.ValidatedIsNormal | src/rasattrading_mcp/pa/screener.py:68-133 | what the validator returns is a full tree whose leaves pass the checks and carry their defaults |
| Screener.RequestExactly | src/rasattrading_mcp/pa/screener.py:83-93 | a request is accepted exactly when it combines by AND or OR at least one filter and all of them are accepted; it then holds if and only if all of them hold, or one of them |
| Screener.BranchExactly | src/rasattrading_mcp/pa/screener.py:99-106 | a branch is accepted exactly when it has nothing but a non-empty list of accepted children, and holds when all of them do, or one of them |
| Screener.LeafHolds | src/rasattrading_mcp/pa/screener.py:107-132 | any other node must be a leaf, and holds when the leaf with its defaults does |
| Screener.LeafExactly | src/rasattrading_mcp/pa/screener.py:108-132 | what each of the eight kinds of filter takes |
| Screener.DefaultsExactly | src/rasattrading_mcp/pa/screener.py:68-80 | the defaults each kind is filled up with |
| Screener.ErrorsExactly | src/rasattrading_mcp/pa/screener.py:95-133 | which of the two errors a refused node carries |
| Screener.EvalWithMatches | src/rasattrading_mcp/pa/screener.py:295-319 | the recursive loops compute the value and the trail of the auditing evaluator |
| Screener.AuditAgrees | src/rasattrading_mcp/pa/screener.py:286-319 | for every accepted request both evaluators agree, the match list is non-empty exactly when true, and it holds only satisfied leaves of the AST |
| Screener.EmptyBranchParts | src/rasattrading_mcp/pa/screener.py:103-106 | without the non-empty-children rule the evaluators differ: an OR over an empty AND |

## Left out

- HTTP and MCP servers, launcher, WebSocket and REST clients, request signing, credential storage, lock files, daemon start-up: plumbing; only the broker's answers enter the model.
- SQLite, write-ahead logging and migrations: maps and sequences with atomic transactions and the uniqueness constraints.
- `execute_on_accounts`, `place_order`, `place_oco_order` and `close_all_positions` as loops over accounts: each account is one call. What ends a call before the caps have ruled (the three preflights, a failing balance query) enters as one optional error, what ends it between the caps and the insert as another; an unknown account is refused before the call begins.
- Account mode changes: a call carries its own snapshot of the mode, which may be outdated, as in the code.
- Legs of an OCO that the exchange lists under ids of its own are orders without a row of ours; a list counts as open, filled or ended as a whole.
- A multi-write call of the kill switch holds one lock from start to end in the code; in the protocol each cancellation and each sale takes the lock anew, so the run properties are proved for more interleavings than the code has.
- The order of rows within a query that the code leaves unordered, and the newest-first choice among several open close sales of one symbol: any of them is taken.
- The `cancelled` symbol list of the kill switch, result texts, error messages, timestamps of order rows, and the audit rows that order changes write.
- Exchange orders without a local row appear only in the fault list of the kill switch; the protocol tracks orders that have a key.
- `OrderRuns.ExecuteIsARun`: a call for an approval handler is taken not to be an OCO placement, because `execute_on_accounts` passes neither a stop-limit price nor, for that type, a price, and the preflight then refuses it.
- `ApprovalRuns.HandlerIsItsActs`: the acts of one handler follow each other there; that others may come between them is covered by `ApprovalSafety`, whose results are about every interleaving.
- Case-insensitive matching of the `close-` prefix by SQL LIKE.
- Exposure from holdings: `ExposureCeiling` is about the counted orders; the holdings' value enters each check as a non-negative number.
- Market data, freshness rules and the accuracy preflight: easy guards whose outcome is a parameter.
- The leaf filters of the screener: any function from leaf and context to truth, since the agreement of the two evaluators does not depend on them; upper-casing of `combine`.
- `Screener.EvalWithMatches`: states the value by the recursive function it loops over; what that function means is `Screener.AuditAgrees`.
- `_read_history` and list queries: plain ordered selections. `_mark_status`, scores, order blocks, VWAP and sessions: easy members.
- Two series of one history table are separate sequences; record ids are positions within a series.
- JSON encoding and decoding, redaction of secrets, missing keys in log lines, `EmergencyLog.clear` and `is_action_done`: an emergency entry's audit text is any function of the entry.
- The zone identifier text of `_make_zone`.
- Side and order type as free text, NaN and infinite inputs, IEEE rounding: the model takes typed values and reals; only the infinite exchange maxima are kept, as absent bounds.
- `detect_swings` with a lookback of zero, which raises on an empty window: the lookback is positive.
- Notification commands, text summaries, retention, the emergency stop's own flow, kline deduplication.
