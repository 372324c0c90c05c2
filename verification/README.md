# Verified model of the account-management backend

This project models the engines of the backend whose guarantees hold over every input or every run, and
proves those guarantees in Dafny. `dafny verify dfyconfig.toml` checks all of it.

| file | models |
|---|---|
| `text_format.dfy` | the first-post markup parser: markup to plain text and entities with UTF-16 offsets |
| `payments.dfy` | the payment ledger, one call at a time: create, confirm, expire |
| `payment_races.dfy` | any number of database sessions confirming payments and sweeping them, step by step, with row locks and the ORM's identity map |
| `subscription.dfy` | subscription rows, the stacking rule, and the Pro time that payments buy |
| `governor.dfy`, `governor_races.dfy`, `governor_intervals.dfy` | the rate governor over Redis counters: sequential calls, and calls interleaved per command |
| `account_machine.dfy`, `account_runs.dfy` | the account state machine: table, resolver, effects; then whole runs, one operation after another, with history, publication and the fingerprint guard |
| `account_races.dfy`, `account_safety.dfy`, `account_publishing.dfy` | database sessions that overlap on the same accounts: copies, column-wise write-back under the table's check constraints, publication after the commit |
| `planner.dfy`, `planner_goals.dfy` | the autopilot planner: its loops, sorting and merge; then what its goals ask for, said of the fleet itself |
| `client_pool.dfy` | the reference-counted pool of clients |
| `bulk_job.dfy`, `bulk_races.dfy` | bulk jobs, their items and the worker's steps on them, first as whole transactions, then with recounts that overlap other transactions |
| `promotions.dfy`, `pricing.dfy` | promotion windows and the two rounding rules of prices |
| `list_ops.dfy` | intersection, union, subtraction and sampling of user lists |
| `wrappers.dfy` | `Option` and a few shared definitions |

Code that changes state is modelled by classes and methods whose contracts give the whole new state through a
specification function; the results are lemmas about those functions. Clocks, random draws, provider answers and
the outcome of network calls are parameters.

## What turned out not to hold

The model keeps the code's branches. Where a promise one would expect fails, a lemma names the failing case and
another says exactly when the promise holds.

* **A payment can extend a subscription twice.** `_lock_payment` asks for a row lock but not for a fresh copy, and
  `check_payment` has loaded the same row before (core/billing/payments.py:131, api/routers/billing.py:137). If
  another session confirms in between, the stale copy passes the guard for repeated calls
  (`PaymentRaces.StaleCopyDoublesThePeriod`); over a run it happens exactly when a session commits after locking
  through an outdated copy (`PaymentRaces.OnceExact`), and never when payments are locked before they are read
  (`PaymentRaces.ExactlyOnceIfLockedFirst`). The documentation of `confirm_payment` promises idempotence without
  this exception.
* **Account transitions overwrite each other.** Nothing locks an account between the read and the commit of a
  transition. The cooldown sweep can return a freshly attached account to the pool with its container still set
  (`AccountRaces.SweepOverwritesAttach`), and an incident can put such an account into a cooldown meant for the pool
  (`AccountRaces.IncidentOverAttach`). The table's check constraint on the two container columns refuses some of these
  commits: `AccountRaces.CommitExact` says exactly which events it refuses and which accepted ones keep the account
  invariant and write a true record, and `AccountRaces.RepointExact` that every re-pointing it accepts is harmless.
  Over whole runs, all accounts stay good all the time if and only if every accepted commit is safe
  (`AccountSafety.AlwaysGoodExact`), in particular when no session commits through an outdated copy
  (`AccountRaces.RunInv`).
* **The fingerprint guard is checked before its write.** `AccountRepository.update` accepts an edit decided on a copy
  from before the account left `created` (`AccountRaces.LateEditChangesFingerprint`, `AccountRaces.EditExact`). This is
  about the repository method: no caller names a fingerprint field today, and the API answers 422 to one that does
  (api/routers/accounts.py:74-75).
* **Messages can appear in another order than the log**, since they are sent after the commit
  (`AccountPublishing.PublishedOutOfOrder`). The channel is in step with the log all the time if and only if no record
  is published while an earlier one is waiting in another session (`AccountPublishing.InStepExact`), and the messages
  that are published are in order if and only if no overtaken record is (`AccountPublishing.PublishOrderExact`).
* **The history does not determine the container id.** Detaching an account from the campaign that leads it re-points
  the row without a record (`AccountRuns.RepointIsNotRecorded`, `AccountRuns.ContainerIdExact`).
* **A bulk job can be closed with an item pending.** A retry through the API can slip between the worker's recount and
  its write (`BulkRaces.RetryUnderRecount`); `BulkRaces.OneWriteExact` gives the exact condition. Nothing worse happens
  with the one worker that the deployment has (docker-compose.yml:5-7): a job is never left open with nothing to do
  (`BulkRaces.NeverLeftOpen`). With a second worker process it could be (`BulkRaces.NobodyCloses`).
* **A payment shortens lifetime Pro.** An open-ended row is read as "now" by the stacking rule
  (`Subscriptions.PaymentNeverShortensExact`).
* **Time can be lost to `now()`**, which PostgreSQL fixes at the start of the transaction
  (`Subscriptions.LateStampExact`).
* **Two requests can both create a live payment, or leave overlapping promotions enabled**, because the look-up and the
  write are separate (`Payments.UnlockedCreatesExact`, `Promotions.UnlockedWritesExact`). Two updates of one promotion
  can do so too: one enables it while the other moves it (`Promotions.EnabledOntoWindow`, `Promotions.SameRowExact`).
* **A governor call cut off between INCR and EXPIRE can block an action for good**
  (`GovernorRaces.CutOffCanStick`, `GovernorRaces.StuckForever`). From fresh counters, every counter without a
  deadline is about to get one if and only if no call was ever cut off there (`GovernorRaces.DeadlinesExact`).
* **A planned throttle displaces a start of warming.** "Lowest-id created accounts, minus the retired ones" is not what
  the merge returns (`Planner.ThrottleDisplacesStart`); `Planner.StartWarmingExact` gives the condition.
* **A second release by the same caller disconnects a client that another caller still holds**
  (`ClientPools.DoubleReleaseStrands`, `ClientPools.ReleaseExact`), and **a disconnect that raises during `close_all`
  leaves the remaining clients connected and unregistered** (`ClientPools.ShutdownExact`).
* **A banned account can still be handed a client.** `get` looks at the account's status only when it creates a client,
  so one that is already in the pool is handed out whatever has become of its account, against the documentation of
  `get` (worker/client_pool/pool.py:101-102, `ClientPools.UnavailableExact`).
* **A cancelled bulk job can get pending items again** when a running item is put back by the rate limit
  (`BulkJobs.CancelledJobExact`, `BulkJobs.CancelledStaysEmpty`), and a retry of its failures revives it (`BulkJobs.RetryMeans`).
* **Intersecting a single list, or a list named twice, selects nobody** under the default overlap
  (`ListOps.IntersectDefaultExact`).

## Model

| member | source | states |
|---|---|---|
| TextFormat.MarkdownToEntities | modules/bulk/text_format.py:56-108 | the scanner computes exactly the token-by-token specification of plain text and entities |
| TextFormat.FindInFirst | modules/bulk/text_format.py:90 | the closing marker found is the first occurrence, and none is missed |
| TextFormat.FindExact | modules/bulk/text_format.py:90 | `find` answers the first occurrence at or behind its start, or -1 if there is none |
| TextFormat.SpacesListed | modules/bulk/text_format.py:48 | the white space that ends a link's address is the 29 characters of `str.isspace` |
| TextFormat.MatchLinkDecidesPattern | modules/bulk/text_format.py:48 | the deterministic link matcher accepts exactly the strings the regular expression matches, with the same groups |
| TextFormat.EncodeCut | modules/bulk/text_format.py:51-53 | cutting text between characters is cutting its UTF-16 bytes at twice the code-unit offset |
| TextFormat.DecodeEncode | modules/bulk/text_format.py:51-53 | the encoded bytes are UTF-16: an independent little-endian decoder (RFC 2781, section 2.2) gives every text back |
| TextFormat.UnitsCounted | modules/bulk/text_format.py:51-53 | the length in code units counts every character once, and those from U+10000 up twice; it is half the number of bytes |
| TextFormat.Lossless | modules/bulk/text_format.py:56-108 | for every source, putting the markers and URLs back into the plain text at the entities' UTF-16 offsets gives the source exactly |
| TextFormat.ParseInjective | modules/bulk/text_format.py:56-108 | two different sources never give the same text and entities |
| TextFormat.EntitiesWellPlaced | modules/bulk/text_format.py:62-108 | for every source the entities are non-empty, in bounds, ordered, disjoint, and begin and end between characters, never inside a surrogate pair |
| TextFormat.PrintThenParse | modules/bulk/text_format.py:40-108 | printing any document of plain text, spans and links and parsing it gives back its text and entities |
| TextFormat.SpanOkWithoutMarker | modules/bulk/text_format.py:89-91 | span content without the marker's character is always printable |
| TextFormat.SingleTokenExact | modules/bulk/text_format.py:40-108 | a single span or link survives printing and parsing if and only if it meets the printability condition |
| TextFormat.SpanBehindText | modules/bulk/text_format.py:81-108 | a marked span behind any unmarked text gives one entity, whose offset and length count each character once and those from U+10000 up twice |
| TextFormat.MarkersAsDocumented | modules/bulk/text_format.py:10-20 | the same for the five markers as the documentation spells them |
| Subscriptions.SubscriptionTable.Upsert | core/repositories/subscription.py:22-41 | a manual grant sets the plan, keeps the expiry, keeps the method when none is given, and touches no other user |
| Subscriptions.SubscriptionTable.ExtendPro | core/repositories/subscription.py:43-75 | the insert and the conflict branch together are the stacking rule, on one row only |
| Subscriptions.ExpiryIsLatestReach | core/repositories/subscription.py:43-75 | after n payments with arbitrary clock readings t_k, expiry is the maximum of t_k plus all periods from k on (and of the old expiry plus all periods) |
| Subscriptions.SameClockCommutes | core/repositories/subscription.py:46-55 | two payments at the same instant may be applied in either order |
| Subscriptions.PaymentNeverShortensExact | api/services/billing.py:57-69 | a payment never takes Pro time away, at any future instant, if and only if the row is not lifetime Pro |
| Subscriptions.Tick | api/services/billing.py:64-69 | one second passing is consumed as Pro or nothing was left, if and only if the row is an ordinary one |
| Subscriptions.PaidTimeConserved | core/repositories/subscription.py:43-75 | with a non-decreasing clock, seconds reported as Pro plus seconds left equal seconds bought plus seconds held at the start, at every instant |
| Subscriptions.NoPaidDayLostOrDoubled | api/services/billing.py:57-69 | once everything has run out, the seconds reported as Pro are exactly the sum of the periods paid for |
| Subscriptions.LateStampExact | core/repositories/subscription.py:57-66 | an extension stamped before it becomes visible keeps its whole period if and only if the old subscription was still running (or the stamp is not late) |
| Payments.PaymentLedger.CreatePayment | core/billing/payments.py:67-110 | reuses the newest live pending payment or appends one with the price fixed; keeps at most one live pending per user, provider and plan |
| Payments.PaymentLedger.ConfirmPayment | core/billing/payments.py:113-179 | each outcome and the exact new tables; refused calls change nothing; the unique keys are kept |
| Payments.PaymentLedger.ExpireStalePending | core/billing/payments.py:182-190 | exactly the overdue pending rows become expired, and their number is returned |
| Payments.KeySelects | core/billing/payments.py:121-130 | a payload decides which payment is confirmed, else provider and invoice together, else the call is refused |
| Payments.WritesItsChanges | core/billing/payments.py:165-170 | the row a confirmation writes is the stored one with the columns changed on the session's copy, also when that copy is outdated |
| Payments.OutcomeExact | core/billing/payments.py:134-163 | each outcome is given if and only if: no payment matches; the one that matches is paid and applied; its new invoice id is taken; none of these |
| Payments.ConfirmExtends | core/billing/payments.py:165-179 | an applied payment leaves its user Pro exactly until the time that was left plus the paid period, by the provider as method; no other payment, no other column and no other user changes |
| Payments.QuoteIsHonoured | core/billing/payments.py:83-110 | a created payment asks for the quoted price in its provider's currency, is open for its lifetime, and buys the quoted period whenever it is confirmed |
| Payments.ConfirmIdempotent | core/billing/payments.py:134-179 | confirming again, later and by any key of the same payment, is refused and changes neither table |
| Payments.OneLivePendingKept | core/billing/payments.py:67-190 | confirming and waiting keep at most one live pending payment |
| Payments.UnlockedCreatesExact | core/billing/payments.py:79-108 | two creations that both saw no live payment break the rule if and only if both ask for the same thing with a positive lifetime |
| PaymentRaces.RunInv | core/billing/payments.py:113-190 | in every interleaving locks exclude each other, the applied payments are the logged ones, and each subscription is the stacking rule folded over its log |
| PaymentRaces.PaidIsPermanent | core/billing/payments.py:162-172 | in every interleaving, a payment that is paid and applied stays so |
| PaymentRaces.ExactlyOnce | core/billing/payments.py:134-190 | if no session locks through an outdated copy, every payment extends at most once, exactly once if it ends up applied, and every subscription is the stacking rule over its payments in commit order |
| PaymentRaces.OnceExact | core/billing/payments.py:113-179 | over any interleaving, every payment extends at most once if and only if no session commits after locking the payment through an outdated copy |
| PaymentRaces.ExactlyOnceIfLockedFirst | core/billing/payments.py:113-190 | if no session reads a payment before locking it, every payment extends at most once, and exactly once if it ends up applied |
| PaymentRaces.SecondExtensionExact | core/billing/payments.py:113-179 | a confirmation extends an applied payment a second time if and only if its session's copy is from before the first application |
| PaymentRaces.StaleCopyDoublesThePeriod | api/routers/billing.py:137-157 | a concrete run of the on-demand check and the reconcile job that pays for one period and gets two |
| PaymentRaces.ExpiredCanBePaid | core/billing/payments.py:162-179 | an expired payment can still be confirmed by any session free to lock it, and becomes paid |
| PaymentRaces.CallIsRun | core/billing/payments.py:137-179 | one call of `confirm_payment` leaves the tables that the lock, extend and commit steps of an uninterrupted session leave, and a refused call those of lock and rollback |
| PaymentRaces.SweepIsRun | core/billing/payments.py:182-190 | one call of `expire_stale_pending` leaves what an uninterrupted sweep leaves: exactly the overdue pending rows expired, nothing else changed |
| PaymentRaces.SweepLockExact | core/billing/payments.py:184-187 | the sweep takes a row if and only if it is pending and overdue and no other session holds it |
| PaymentRaces.UsersDoNotBlock | core/repositories/subscription.py:62-75 | extensions of different users do not block each other |
| RateGovernor.Governor.CheckAndReserve | worker/health/governor.py:60-83 | grants exactly when every window has room, reserves in each window and nowhere else, keeps the sliding bound for all accounts and actions; a refusal changes no counter and some window had its limit granted within its last length |
| RateGovernor.GrantKeepsWindow | worker/health/governor.py:70-83 | one grant keeps the relation between a window's counter and the history of grants, across periods |
| RateGovernor.SlidingBound | worker/health/governor.py:22-83 | any interval as long as the window holds at most 2L - 1 grants |
| RateGovernor.SlidingBoundTight | worker/health/governor.py:70-83 | for every window there is a permitted history that reaches 2L - 1 |
| RateGovernor.FullMeansLimitGranted | worker/health/governor.py:71-75 | a full counter means L grants within the last window length |
| GovernorRaces.OvershootBound | worker/health/governor.py:70-83 | with k calls in flight, interleaved per Redis command and cut off anywhere, no counter ever exceeds L + k - 1 |
| GovernorRaces.FreshOvershootBound | worker/health/governor.py:70-83 | in particular from fresh counters |
| GovernorRaces.OvershootTight | worker/health/governor.py:70-83 | in the window with the smallest limit, L + k - 1 is reached by k calls that check before any increments |
| GovernorIntervals.InterleavedSlidingBound | worker/health/governor.py:70-83 | with k calls in flight, interleaved and cut off anywhere, any interval as long as a window holds at most 2(L + k - 1) increments of its counter |
| GovernorRaces.StepCoveredExact | worker/health/governor.py:78-82 | a step keeps "every counter without a deadline has a call about to date it" if and only if it does not cut a call off between INCR and EXPIRE |
| GovernorRaces.DeadlinesExact | worker/health/governor.py:78-82 | from fresh counters that holds after a run if and only if no call was ever cut off there, and then no window is stuck |
| GovernorRaces.StuckForever | worker/health/governor.py:80-82 | a used-up counter that lost its deadline stays full in every later run |
| GovernorRaces.CutOffCanStick | worker/health/governor.py:70-83 | for every action and every one of its windows, a run from fresh counters with one call cut off between INCR and EXPIRE leaves the window stuck |
| AccountMachine.TableMeansRow | core/state_machine/account.py:62-209 | at most one table row is enabled for any account and event, namely the one of an independent case analysis |
| AccountMachine.Resolve | core/state_machine/account.py:274-311 | the resolver's search gives that row or the right refusal; the ambiguity branch is unreachable |
| AccountMachine.ApplyEffects | core/state_machine/account.py:323-347 | the loop is the fold of the rule's effects |
| AccountMachine.TableMeansAfter | core/state_machine/account.py:107-271 | an event commits if and only if a row is enabled, its sender is right and its data is present; then account and record are those of the case analysis |
| AccountRuns.NeverBlocked | core/state_machine/account.py:296-303 | under the account invariant neither the precondition nor the ambiguity error occurs, and a cooldown has exactly one enabled expiry row |
| AccountRuns.ReachableAccounts | core/state_machine/account.py:107-271 | for operations one after another: after any run a container is set if and only if the account is assigned, or cooling down from an assignment; cooldowns have a deadline; those two errors never occur |
| AccountRuns.RejectedChangesNothing | core/state_machine/account.py:227-271 | an event that is refused leaves accounts, history and messages as they were; a lost publication is the only error after a commit |
| AccountRuns.AcceptanceExact | core/state_machine/account.py:219-271 | an event is accepted if and only if a row is enabled, the sender is right and the data is there; the account, its record and each refusal's error are given by cases |
| AccountRuns.MessageAnnounces | core/state_machine/account.py:266-268 | the message about an accepted event carries the account, the status it left and the stored new one, the event, its sender, and the deadline of the data in textual form |
| AccountRuns.RunInv | core/state_machine/account.py:227-271 | for operations one after another: every reachable system satisfies the joint invariant of accounts, history and messages |
| AccountRuns.HistoryReplays | core/state_machine/account.py:250-271 | for operations one after another, re-pointings included: replaying an account's records, by event and stored data only, gives its status, previous status, container type and deadline |
| AccountRuns.ContainerIdExact | modules/commenting/api/service.py:125-135 | the records give the container id if and only if the account was not re-pointed since its container was last set or cleared, or was last re-pointed to that container |
| AccountRuns.RepointIsNotRecorded | modules/commenting/api/router.py:216-246 | a concrete run: attached to two campaigns, the leading one deleted; the records say one, the row the other |
| AccountRuns.AccountStateMachine.Repoint | modules/commenting/api/service.py:125-135 | the direct write of the container id, only for an account led by that campaign |
| AccountRuns.RecordsChain | core/state_machine/account.py:250-264 | for operations one after another: consecutive records of an account chain from and to, except that a `created` record names no status to start from |
| AccountRuns.PublishedFollowsHistory | core/state_machine/account.py:266-379 | for operations one after another: the published messages are those of committed records, in log order, each at most once |
| AccountRuns.RunAppends | core/repositories/account_status_history.py:10-25 | history and messages are append-only over any run |
| AccountRuns.FingerprintLockExact | core/repositories/account.py:49-62 | an update naming a fingerprint field is accepted if and only if the account is still `created` |
| AccountRuns.EditMeans | core/repositories/account.py:49-66 | an accepted update sets the named fields and nothing else; it is refused if and only if it names one of the five fields after `created` |
| AccountRuns.UpdateReaches | core/repositories/account.py:49-66 | an update reaches its own account and no other |
| AccountRuns.FingerprintFrozen | core/repositories/account.py:49-67 | for operations one after another: once an account has left `created`, no mix of events and updates returns it there or changes its five fingerprint fields |
| AccountRaces.CommitExact | core/models/account.py:33-36 | committing an event through a copy is refused by the table if and only if an attachment writes one container column to a row without a container; otherwise it keeps the account invariant if and only if the row is safe for it, by a table per event, and writes a true record if and only if the row's status is still the one read |
| AccountRaces.FreshCommitIsGood | core/state_machine/account.py:241-266 | an event committed to a row in the state that was read is accepted, keeps the invariant and writes a true record |
| AccountSafety.AlwaysGoodExact | core/state_machine/account.py:227-271 | over any interleaving of transactions with one event or re-pointing per account, every account satisfies its invariant all the time if and only if every commit that the table accepts is safe |
| AccountRaces.EditExact | core/repositories/account.py:49-67 | committing an update through a copy keeps the fingerprint of a row that has left `created` if and only if the copy is from after that, or writes no new fingerprint value |
| AccountRaces.MergeUnchanged | core/state_machine/account.py:264 | written back to the row as it was loaded, a copy is what the session made of it |
| AccountRaces.RepointExact | modules/commenting/api/service.py:125-135 | a re-pointing is accepted by the table if and only if the row still has a container, and an accepted one keeps the account invariant |
| AccountRaces.RunInv | core/state_machine/account.py:227-271 | in every interleaving in which no session commits through an outdated copy, accounts keep their invariant and records replay and link |
| AccountRaces.RowsStayGood | core/state_machine/account.py:107-271 | in those interleavings a container is set if and only if the account is assigned, or cooling down from an assignment; cooldowns have a deadline; guard and ambiguity errors cannot occur on the row |
| AccountRaces.RowsReplay | core/state_machine/account.py:250-271 | in those interleavings the history replays to the row, and the fingerprint of an account that has left `created` never changes |
| AccountRaces.RecordsChain | core/state_machine/account.py:250-264 | in those interleavings consecutive records of an account chain, whichever sessions wrote them |
| AccountPublishing.PublishedOnce | core/state_machine/account.py:266-379 | in every interleaving at all, each message is that of a committed record, published at most once, and each session's messages are in log order |
| AccountPublishing.MessagesAnnounce | core/state_machine/account.py:266-379 | in every interleaving each message carries the account, the statuses, the event, the sender and the deadline of the record it is about |
| AccountPublishing.OvertakingExact | core/state_machine/account.py:266-271 | a step keeps the channel in step with the log, everything published before everything waiting, if and only if it does not publish a record while an earlier one is waiting in some session |
| AccountPublishing.InStepExact | core/state_machine/account.py:266-271 | over any interleaving the channel is in step all the time if and only if no step overtakes a waiting record |
| AccountPublishing.PublishOrderExact | core/state_machine/account.py:266-271 | over any interleaving the published messages are in log order if and only if no record is published after it was overtaken while waiting |
| AccountRaces.SweepOverwritesAttach | worker/tasks/handlers.py:107-120 | a concrete run: an attachment committed during the cooldown sweep leaves a pool account with a container and records that do not chain |
| AccountRaces.IncidentOverAttach | core/state_machine/account.py:241-266 | a concrete run: an incident decided on the same read as an attachment leaves a cooldown from the pool with a container |
| AccountRaces.LateEditChangesFingerprint | core/repositories/account.py:56-66 | a concrete run: the repository accepts an update through a copy from before the warming, and the fingerprint of a warming account changes |
| AccountPublishing.PublishedOutOfOrder | core/state_machine/account.py:266-270 | a concrete run in which the session that committed second publishes first |
| AccountRuns.AccountStateMachine.Transition | core/state_machine/account.py:227-271 | parses event and initiator, and performs exactly the specified step on accounts, history and messages |
| AccountRuns.AccountStateMachine.Update | core/repositories/account.py:49-67 | the field-by-field loop is the specified update; a refused one changes nothing |
| AccountRuns.ParseEvent | core/state_machine/account.py:34-47 | a name is parsed to the event that has it, and rejected only if none has |
| AccountRuns.NamesAsListed | core/state_machine/account.py:34-47 | the names of the events |
| Planner.SortedMeans | core/autopilot/planner.py:103-106 | sorting permutes and orders by the key |
| Planner.SortedStable | core/autopilot/planner.py:136-139 | and keeps the order of accounts with equal keys |
| Planner.PlanKeepLowRisk | core/autopilot/planner.py:122-170 | when the average is too high it retires the riskiest critical accounts and throttles the next, ten in all; otherwise nothing |
| PlannerGoals.AverageMeans | core/autopilot/planner.py:48-59 | the average is the sum of the risks of the accounts in the pool, assigned or warming over their number, and zero without any |
| PlannerGoals.OthersDoNotCount | core/autopilot/planner.py:49-56 | an account of any other status never changes the average, wherever it stands |
| PlannerGoals.FiresExact | core/autopilot/planner.py:129-132 | a risk goal fires if and only if those risks exceed its threshold, 0.3 unless given, on average |
| PlannerGoals.FiresWhenAllRisky | core/autopilot/planner.py:129-132 | so it fires when all of them are above the threshold, and not when none is |
| Planner.StartingGoals | core/autopilot/planner.py:83-119 | both supply goals start the candidate prefix of one formula, and no goal plans more than ten actions |
| PlannerGoals.StartsExact | core/autopilot/planner.py:83-119 | a supply goal starts accounts until its target is reached, the `created` accounts run out or it has started ten; it never overshoots; unknown goals do nothing |
| Planner.Plan | core/autopilot/planner.py:213-239 | the result is the merge of all goals' actions: accounts in order of first appearance, each with its winner |
| Planner.WinnerMeans | core/autopilot/planner.py:227-238 | an account is left with its last retirement if it has one, else with its first action |
| Planner.FirstSeenOrder | core/autopilot/planner.py:227-239 | the plan lists accounts once each, ordered by their first action |
| Planner.PlanIsOutcome | core/autopilot/planner.py:213-239 | no two returned actions share an account, and an account has an action of a type exactly when that is its outcome |
| PlannerGoals.PlanCarries | core/autopilot/planner.py:108-119 | every action of the plan is one that some goal has for an account of the fleet of the right status, risk and pace, with that account's and that goal's figures |
| Planner.RetireSurvives | core/autopilot/planner.py:234-238 | the plan retires an account if and only if some goal does |
| Planner.StartWarmingExact | core/autopilot/planner.py:213-239 | the plan starts an account if and only if some goal starts it that no throttling goal precedes, and no goal retires it |
| Planner.StartedArePrefix | core/autopilot/planner.py:90-119 | the accounts some goal starts are the candidate prefix as long as the largest take over all goals |
| Planner.CandidatesMean | core/autopilot/planner.py:103-106 | the candidates are exactly the `created` accounts, lowest id first |
| Planner.ThrottleDisplacesStart | core/autopilot/planner.py:213-239 | a concrete plan in which a candidate that nobody retires is throttled instead of started |
| Planner.RetiredAreRiskiest | core/autopilot/planner.py:136-147 | with distinct ids, no account that stays is riskier than one that is retired |
| Planner.ThrottledMeans | core/autopilot/planner.py:149-170 | throttled accounts are of high risk and not at minimal pace; one is passed over only when ten actions go to accounts no less risky |
| Planner.RetiringNeverRaisesRisk | core/autopilot/planner.py:48-59 | taking out the retired accounts never raises the average risk of the accounts that stay active |
| ClientPools.ClientPool.Get | worker/client_pool/pool.py:97-131 | reuse, creation and every failure path give exactly the specified pool and reply |
| ClientPools.ClientPool.CreateClient | worker/client_pool/pool.py:154-203 | the error of each failing condition, in order; a client is created only without one |
| ClientPools.ClientPool.Release | worker/client_pool/pool.py:133-142 | the specified release, whoever calls |
| ClientPools.ClientPool.CloseAll | worker/client_pool/pool.py:144-150 | empties the registry and disconnects every client, or those up to the first disconnect that raises; clients stay accounted for if and only if none before the last raises |
| ClientPools.GetMeans | worker/client_pool/pool.py:97-131 | a successful get hands out the account's one registered client, connected, with one more reference; a failure leaves the registry as it was |
| ClientPools.CreationExact | worker/client_pool/pool.py:154-203 | without a registered client one is created if and only if the account exists and is neither banned nor retired, a proxy or the permission is there, and it can be built; each refusal has its error and changes nothing |
| ClientPools.UnavailableExact | worker/client_pool/pool.py:97-110 | a missing, banned or retired account is refused for it if and only if it has no client in the pool |
| ClientPools.RunAccounted | worker/client_pool/pool.py:97-150 | after any run with any releases, every client ever created is registered and never disconnected, or unregistered and disconnected exactly once; accounts have different clients |
| ClientPools.RunMatches | worker/client_pool/pool.py:97-150 | if only holders release, every reference count is the number of holds, and at least one |
| ClientPools.ReleaseExact | worker/client_pool/pool.py:133-142 | a release keeps the counts right if and only if the account has no client or the caller still holds it |
| ClientPools.HeldClientIsLive | worker/client_pool/pool.py:97-142 | while counts are right, a held client is registered and was never disconnected |
| ClientPools.ShutdownExact | worker/client_pool/pool.py:144-150 | a shutdown keeps every client accounted for if and only if no disconnect before the last one raises |
| ClientPools.CloseExact | worker/client_pool/pool.py:144-150 | that is, if and only if it reaches all of them |
| ClientPools.DoubleReleaseStrands | worker/client_pool/pool.py:133-142 | a concrete run where a double release leaves another holder with a disconnected client |
| BulkJobs.CountsPartition | core/repositories/bulk_job.py:123-135 | the six item counts add up to the number of items |
| BulkJobs.CountMeans | core/repositories/bulk_job.py:122-135 | a count is the number of places with that status |
| BulkJobs.DedupOrder | core/repositories/bulk_job.py:24 | deduplication keeps accounts once each, in order of first appearance |
| BulkJobs.NewJobMeans | core/repositories/bulk_job.py:24-36 | a new job is queued, has recorded nothing, and has one pending item for each account asked for and no other |
| BulkJobs.BulkJobRepository.Create | core/repositories/bulk_job.py:16-36 | a new job has one pending item per distinct account |
| BulkJobs.BulkJobRepository.MarkRunning | core/repositories/bulk_job.py:65-72 | only a queued job starts |
| BulkJobs.BulkJobRepository.Cancel | core/repositories/bulk_job.py:74-91 | the specified cancellation; done and cancelled jobs are left alone |
| BulkJobs.BulkJobRepository.ApplyItemResult | core/repositories/bulk_job.py:93-114 | one item gets the result; missing timestamps keep the old ones |
| BulkJobs.BulkJobRepository.RecomputeCounters | core/repositories/bulk_job.py:116-150 | the counting loop gives the true counts and closes the job as specified |
| BulkJobs.BulkJobRepository.ResetFailedToPending | core/repositories/bulk_job.py:152-176 | resets the failed items and returns their number |
| BulkJobs.RecountMeans | core/repositories/bulk_job.py:136-148 | recounted numbers are exact and complete, and the job is closed if and only if it is not cancelled and nothing is left |
| BulkJobs.RecountWrites | core/repositories/bulk_job.py:136-148 | recounting writes the counters and, if and only if nothing is left and the job is not cancelled, the closing status and time; nothing else |
| BulkJobs.StepRecords | worker/tasks/bulk.py:95-273 | status, error, result and times that taking up, settling and putting back an item record, and on that item only |
| BulkJobs.DispatchRecords | worker/tasks/bulk.py:50-91 | dispatch starts a queued job, or fails exactly its pending items when the action is unknown |
| BulkJobs.ApplyExact | core/repositories/bulk_job.py:93-148 | a result plus recount keeps the job invariant if and only if it does not reopen an item of a closed job |
| BulkJobs.RunInv | worker/tasks/bulk.py:50-291 | for transactions one after another, any order of dispatch, items, rate limits, cancel and retry keeps: a closed job has nothing left and failed exactly when an item failed, and a non-empty job with nothing left is closed or cancelled |
| BulkJobs.RunKeepsAccounts | worker/tasks/bulk.py:50-291 | no step adds, drops or re-targets an item |
| BulkJobs.WorkBound | worker/tasks/bulk.py:95-243 | without retries a job on n accounts advances items at most 2n times plus once per rate-limited step, under any interleaving |
| BulkJobs.WorkDoneMeansFinished | core/repositories/bulk_job.py:142-148 | after any run a job on some account is finished if and only if its measure is zero, without retries at the latest when the bound is used up |
| BulkJobs.NeverStuck | worker/tasks/bulk.py:95-243 | a non-empty job has an item to advance if and only if it is not finished, as long as the worker of a running item lives |
| BulkJobs.AbandonedItemHoldsJob | worker/tasks/bulk.py:108-110 | a running item that its worker never settles or defers stays running over any run, and the job is never closed |
| BulkJobs.CancelMeans | core/repositories/bulk_job.py:79-91 | cancelling turns exactly the pending items into cancelled ones |
| BulkJobs.CancelledJobExact | worker/tasks/bulk.py:246-273 | without retry a step leaves a cancelled job cancelled, and raises its number of pending items if and only if a running item is put back |
| BulkJobs.CancelledStays | core/repositories/bulk_job.py:139-141 | over any run without retries a cancelled job stays cancelled |
| BulkJobs.CancelledStaysEmpty | worker/tasks/bulk.py:246-273 | and without put-backs it gets no pending item |
| BulkJobs.RetryMeans | core/repositories/bulk_job.py:152-176 | a retry queues the job, even a cancelled one, if and only if it has failed items, which become fresh pending ones |
| BulkRaces.WriteExact | core/repositories/bulk_job.py:116-150 | a worker's write keeps the job invariant if and only if its reading is still true, and undoes a cancellation if and only if it had found nothing left |
| BulkRaces.UnchangedIsTrue | core/repositories/bulk_job.py:116-150 | if the job was not changed since it was read, the write is the whole transaction and its reading is true |
| BulkRaces.RunInv | worker/tasks/bulk.py:222-273 | in any interleaving, of any number of workers, in which every write finds its reading still true, the job invariant holds |
| BulkRaces.NeverLeftOpen | worker/tasks/bulk.py:222-273 | with one worker, whatever the API commits between its reads and its write, a job is never left open with nothing to do |
| BulkRaces.OneWorkerInv | worker/tasks/bulk.py:222-273 | with one worker the job invariant holds as long as no retry resets a failed item between the worker's finding nothing left and its write |
| BulkRaces.OneWriteExact | core/repositories/bulk_job.py:116-176 | after any cancels and retries the only worker's write keeps the job invariant if and only if it had found something left, or no retry has reset a failed item, or a cancellation has followed and the worker's own item failed |
| BulkRaces.RetryUnderRecount | core/repositories/bulk_job.py:142-176 | a concrete run: a retry between the recount and the write leaves a failed job with a pending item |
| BulkRaces.NobodyCloses | docker-compose.yml:5-7 | why there must be one worker: a second worker process, which the deployment excludes, could settle the other of the last two items at the same time, and the job would stay running with nothing left and a wrong counter |
| Pricing.HalfUpExact | core/billing/pricing.py:90 | half-up rounding is the one value in whose half-open unit the amount lies |
| Pricing.HalfEvenExact | core/billing/pricing.py:98 | half-even rounding is the one nearest value, even on a tie |
| Pricing.PercentPricesNearest | core/billing/pricing.py:84-129 | percent prices lie in 0..base and are at most half a unit from the exact value |
| Pricing.PercentPricesMonotone | core/billing/pricing.py:84-129 | and are monotone in the base and antitone in the percentage |
| Promotions.PromotionStore.CreatePromotion | core/billing/promotions.py:85-127 | stores exactly the valid, non-overlapping rows, else reports the first error and changes nothing |
| Promotions.PromotionStore.UpdatePromotion | core/billing/promotions.py:130-172 | validates and stores the merged row, leaving itself out of the overlap comparison |
| Promotions.PromotionStore.DeletePromotion | core/billing/promotions.py:175-181 | removes exactly the named row |
| Promotions.PromotionStore.GetActivePromo | core/billing/pricing.py:64-81 | answers a latest-starting live row, or none if there is none |
| Promotions.StoringKeepsConsistent | core/billing/promotions.py:25-74 | a row passes validation if and only if storing it keeps the table valid and enabled windows disjoint |
| Promotions.UnlockedWritesExact | core/billing/promotions.py:109-172 | two writes to different rows, creating or updating, validated against the same table leave it consistent if and only if they do not clash |
| Promotions.SameRowExact | core/models/promotion.py:41-55 | two updates of one row validated against the same table: the table refuses the second if and only if the columns do not fit, and an accepted one leaves the table consistent if and only if no fixed price became negative and the combined row, if enabled, clashes with no other |
| Promotions.WrittenOverMeans | core/billing/promotions.py:163-170 | only changed columns are written back: over the row as loaded that gives the wanted row, and without changes it leaves the row as it is |
| Promotions.EnabledOntoWindow | core/billing/promotions.py:151-172 | a concrete failure: one request enables a promotion while the other moves it onto an enabled window |
| Promotions.ActivePromoUnique | core/billing/pricing.py:71-81 | the active promotion at any instant is unique, whatever the tie-breaking |
| Promotions.PriceReturnsToBase | core/billing/pricing.py:102-137 | the price is a function of the instant and is the base price if and only if no enabled window contains it |
| Promotions.FieldErrorExact | core/billing/promotions.py:25-52 | which promotions are valid, and which fault is reported first |
| Promotions.OverlapExact | core/billing/promotions.py:55-74 | a valid row is refused if and only if it is enabled and another enabled row shares an instant with it |
| Promotions.MergedMeans | core/billing/promotions.py:136-170 | each column of an updated row takes its own field of the request or keeps its value |
| Promotions.PromoPriceExact | core/billing/pricing.py:84-137 | the price under any promotion: its fixed price if it is a fixed one that has it, else the discounted base rounded half up to the cent and half to even to the star; never negative, and the period stays |
| Promotions.FixedPrices | core/billing/pricing.py:84-99 | a valid fixed promotion charges its own prices |
| Promotions.AdjacentWindows | core/billing/pricing.py:64-81 | windows that meet are never both live and leave no gap |
| ListOps.Build | modules/parsing/list_ops.py:66-85 | the nested loops fill the three dictionaries with the set-theoretic definitions |
| ListOps.RunListOp | modules/parsing/list_ops.py:42-125 | each operation selects the set of its definition (a sample: a subset of size min(k, union)), one row per user, or the first error in order |
| ListOps.SelectedMeans | modules/parsing/list_ops.py:86-105 | what each operation selects, user by user, said of the lists themselves |
| ListOps.RepresentativeMeans | modules/parsing/list_ops.py:78-84 | a user's row comes from the first source list that holds the user |
| ListOps.RowIsCopied | modules/parsing/list_ops.py:71-84 | a user's row is a copy of the first target with that user over all source lists in order |
| ListOps.UnionMeans | modules/parsing/list_ops.py:91-92 | a union holds the users of any list |
| ListOps.SubtractMeans | modules/parsing/list_ops.py:93-98 | a subtraction holds the users of the first list that are in none of the others |
| ListOps.RefusalExact | modules/parsing/list_ops.py:53-101 | which requests are refused, and which fault is reported first |
| ListOps.OverlapMeans | modules/parsing/list_ops.py:77-90 | a user is in the intersection if and only if max(2, min(m, n)) different source lists hold the user |
| ListOps.IntersectAntitone | modules/parsing/list_ops.py:87-90 | asking for a larger overlap never adds a user |
| ListOps.IntersectDefaultExact | modules/parsing/list_ops.py:87-90 | the default overlap is the true intersection of two or more different lists, and empty otherwise |
| ListOps.SubtractAndOverlapPartition | modules/parsing/list_ops.py:87-98 | for different lists, subtraction and overlap-of-two partition the first list |
| ListOps.Shuffle | modules/parsing/list_ops.py:102-105 | the shuffle keeps the pool's users and their distinctness, whatever the draws |

## Left out

- Telegram, HTTP, SQL and Redis calls themselves: their outcomes are parameters or steps.
- Lone surrogates in the markup parser: Python strings may hold them and the encoder raises; Dafny's characters are Unicode scalar values.
- The order of the plan's `reason` texts and their float formatting: planned actions carry the numbers instead.
- Planner.RetiringNeverRaisesRisk: risks and averages are exact reals, so the rounding of Python floats is not modelled; account ids are taken to be distinct, as they are primary keys.
- PlannerGoals.FiresExact: over exact reals; close to the threshold the rounding of Python's float sum may decide otherwise.
- Pricing.PercentPricesNearest: the star price divides in floating point, which is exact enough to agree with exact rounding for the 32-bit bases of the column; the model rounds exactly.
- Payments.PaymentLedger.CreatePayment: the random payload is a parameter and taken to be new; the race of two creations is a separate lemma, not part of the interleaving model.
- PaymentRaces.ExactlyOnce: assumes that no session locks a payment through a copy older than its application, which the code does not ensure (OnceExact gives the condition); the unique index on invoice ids shows up there only as a rollback.
- Subscriptions.PaidTimeConserved: assumes a non-decreasing clock, no lifetime grant and no manual change of plan during the run.
- RateGovernor.SlidingBound: for calls that run one after another with a clock that does not go back; interleaved calls have the bounds of GovernorRaces and GovernorIntervals.
- GovernorRaces.OvershootTight: for a window whose limit is not the smallest, the other windows may refuse first, so the bound need not be reached there.
- AccountRuns.RunInv: one operation after another on the committed rows, like ReachableAccounts, RecordsChain and FingerprintFrozen there; overlapping sessions are the subject of AccountRaces.
- AccountRuns.HistoryReplays: the timestamps of warming start and activation are not in the records and are not reproduced; account deletion is not modelled.
- AccountRuns.PublishedFollowsHistory: one operation after another; phone, user name and display name of the message are not modelled.
- AccountRaces.RunInv: assumes that no session commits a change to an account whose status, previous status, container or deadline differs from what the session read, which the code does not ensure; accounts are not added or deleted during the run, and a commit's rows become visible at once. No check constraint but those on the container columns and the previous status is modelled.
- AccountSafety.AlwaysGoodExact: transactions have at most one event or re-pointing per account; a transition commits at once, so the code's have.
- BulkJobs.RunInv: transactions one after another; results are applied only to the item a worker has found pending or left running, and two deliveries of one item that both pass the pending check are covered by the exact condition on applying a result.
- BulkRaces.RunInv: assumes that every write finds its reading still true; for the one worker of the deployment NeverLeftOpen and OneWorkerInv assume less; only the ending of a running item is split into its reads and its write, dispatch, begin, cancel and retry are whole, and a worker reads the job and its items at one instant.
- BulkJobs.NeverStuck: a worker that dies after taking up an item is named by AbandonedItemHoldsJob.
- The texts in the error and result columns of bulk items, beyond their presence.
- ClientPools.ClientPool.Get: the lock makes each operation one step; connecting is an outcome, and the connection timeout is one way to fail.
- ListOps.RunListOp: the library's random source is a list of draws; the order of the inserted rows, which iterates over a set, is not modelled.
- The risk predictor and the health score: powers of floats and clamped sums, nothing stateful.
- Captcha, language-model and profile-text generation, health probes, routers, bot commands, the notifier, the frontend and migrations.
- The bulk dispatcher's queue, the autopilot tick and the reconcile loop: they appear as callers of the modelled operations.
