# Verification model of the restaurant POS

A Dafny model of the parts of the multi-tenant restaurant POS where an error costs money, repeats an
effect or grants too much, with proofs of what those parts promise. External systems (Postgres, Redis, NATS,
Keycloak, the printer) are small abstract states whose operations are atomic; everything around them follows
the program branch by branch. Amounts are whole kurus. Check the whole project with
`dafny verify dfyconfig.toml`.

The files, grouped by subject:

- `Outbox`, `Backoff`, `OutboxProtocol`: the transactional outbox dispatcher. `Outbox` is the table with the
  claim query, the publish loop and the results transaction; `OutboxProtocol` lets any number of instances
  interleave, crash, stall and reclaim; `Backoff` is the retry delay in 64-bit arithmetic.
- `RateLimit`, `Idempotency`: the sliding-window script and the Idempotency-Key protocol over Redis.
- `StaffInvite`: invites over Keycloak and two tables, with concurrent invites, crashes and realm admins who
  edit or delete accounts.
- `Kitchen`: the print dispatcher's reader and worker goroutines.
- `PaymentLines`, `PaymentPlan`: largest-remainder allocation of fiscal lines, and whole runs of payments.
- `Catalog`, `OptionTree`, `PriceLines`, `Options`, `MenuPricing`, `GuestMenu`, `DinerCharge`: one catalog state
  as every component sees it, from SQL rows through the folded option tree and the diner's nested menu to the
  picker's selection and the server's price.
- `LineKey`, `Cart`, `CounterCart`: the merge key of cart lines as a string, runs of cart operations, and the
  server's price of a whole round that was filled from the listing and the picker.
- `Numpad`: the numeric field's grammar and its value in kurus.
- `Permissions`, `RoleScope`: the permission cache and union, and branch-scoped roles.
- `Billing`: VAT splitting, invoice totals and numbering.

How the pieces are stated. A concurrent component is a state machine: `Enabled` and `Do` give its atomic
steps, `IsRun` its runs, and theorems speak of every run. A component that updates state in place is also a
class whose methods, with the loops of the program, are proved equal to the functions the theorems are about. The
predicates and amounts that the protocols share (what is eligible, what is owed, what is allowed, what is due) are
also pinned down on their own, in columns and literal numbers, so that no theorem holds for another reading of them.

## What the proofs found

Some documented or expected properties do not hold of the code as it stands. Each has a concrete run or input,
and the exact condition under which the property does hold.

- Outbox: the floor min(60 s, 2^retry s) of the delay fails for retry counts from 34 on whose 64-bit product
  wraps (`Backoff.BackoffFloorExact`). An instance that outlives `StaleClaimAfter` can lower a
  retry count and revive a dead row (`OutboxProtocol.StaleHolderRevivesDeadRow`). A dead row stays dead if and
  only if no failure counted from below maxRetries is applied to it (`OutboxProtocol.DeadRevivedExactly` for one
  transaction, `OutboxProtocol.DeadForEverExactly` for runs), and the counts stay true if and only if no results
  transaction overwrites a newer count (`OutboxProtocol.CountsAgreeExactly` for one, `OutboxProtocol.CountsTrueExactly`
  for runs).
- Idempotency: the cache is not looked up again after the lock is taken, so a request that missed before a
  store runs the handler a second time (`Idempotency.DuplicateRun`, exact condition
  `Idempotency.StoreIsFinalExactly`). The unconditional DEL of a late request lets two handlers run at once
  (`Idempotency.OverlapRun`; an overlap occurs if and only if a request takes the lock over from one that has
  outstayed its own, `Idempotency.OverlapsExactly`). A key that ends in the lock suffix shares a Redis key with
  another key's lock (`Idempotency.LockCollidesExactly`).
- Staff invites: once a drifted address has been synced, a retry with the old address does not reach the
  person any more: it makes a second person (`StaffInvite.DoubledRun`) or is stuck (`StaffInvite.StuckRun`). It
  reaches the person if and only if no person with that address had drifted from its account
  (`StaffInvite.RetryReachesExactly`).
- Kitchen: an owed order is dropped when it is sighted between its failed print and the release of its
  inflight mark (`Kitchen.SwallowedSighting`, exact condition `Kitchen.OwedLostExactly`).
- Payments: a payment can go out without fiscal lines when only free items are unpaid while money is still
  owed, which a voided payment brings about (`PaymentPlan.VoidLeavesPaymentWithoutLines`, exact condition
  `PaymentPlan.LinesExistExactly`).
- Menus: the unique key of product_channel_availability does not bind rows without an integrator, so a
  product can be listed twice (`MenuPricing.SoupListedTwice`, exact condition `MenuPricing.ListedOnceExactly`).
- Roles: reactivating a terminated chain-wide membership grants a role that has become branch-scoped in the
  meantime, because the guard trigger fires on role and branch changes only and the flip ignores terminated
  rows (`RoleScope.RevivedGrantLeaks`, exact condition `RoleScope.ScopeKeptExactly`).

## Model

| member | source | states |
|---|---|---|
| Backoff.DelayBelow61Seconds | backend/internal/platform/outbox/dispatcher.go:499-507 | no retry count and no jitter makes the delay reach 61 s, even where the multiplication wraps |
| Backoff.BackoffFloorExact | backend/internal/platform/outbox/dispatcher.go:497-507 | the documented floor min(60 s, 2^retry s) holds for every jitter and every outcome of an overflowing conversion if and only if the retry is at most 33 or one of the listed later ones |
| Backoff.DelayIsExact | backend/internal/platform/outbox/dispatcher.go:497-507 | the delay in numbers for every retry count: 1, 2, 4, 8, 16, 32 seconds, then a minute, each plus the jitter; from 34 on a minute or no more than the jitter, as the product wraps |
| Outbox.ApplyResultsRows | backend/internal/platform/outbox/dispatcher.go:401-464 | row by row, the results transaction marks exactly the acknowledged rows processed, writes claim-time count plus one and the dead flag on exactly the refused ones, and leaves every other row as it was |
| Outbox.SplitByAck | backend/internal/platform/outbox/dispatcher.go:266-290 | every row of a batch goes exactly one way, acknowledged or refused, by its own publish |
| Outbox.Dispatcher.Apply | backend/internal/platform/outbox/dispatcher.go:408-460 | the two loops of statements produce the specified table |
| Outbox.Dispatcher.DispatchTable | backend/internal/platform/outbox/dispatcher.go:241-302 | one cycle claims, splits the batch by acknowledgement and applies it; a missing relation disables the table for good, any other claim error changes nothing |
| OutboxProtocol.RunSafe | backend/internal/platform/outbox/dispatcher.go:241-302 | in every interleaving with crashes and reclaims, batches refer to existing rows, outcomes to published events, and every processed row was delivered |
| OutboxProtocol.ProcessedForEver | backend/internal/platform/outbox/dispatcher.go:422-429 | processed_at is never unset, and a processed row's event id was received by the broker |
| OutboxProtocol.ClaimsExactly | backend/internal/platform/outbox/dispatcher.go:325-357 | in columns, which claims the query can return: unlocked rows that are unprocessed, not dead, past their next retry and not claimed within the interval, each once; a due row is left out only when the batch is full of rows before it by aggregate and event |
| OutboxProtocol.ClaimedExactly | backend/internal/platform/outbox/dispatcher.go:341-357 | what is claimed is stamped with the clock and remembered with its retry count, and nothing else is touched |
| OutboxProtocol.RetryWaitsOut | backend/internal/platform/outbox/dispatcher.go:325-357 | in every run a failed row is not claimed by anybody before its delay is over, for retries up to 33 at least min(60 s, 2^retry s) |
| OutboxProtocol.DeadByCount | backend/internal/platform/outbox/dispatcher.go:281-284 | in every run a row is dead exactly when its retry count has passed the configured maximum, ten by default |
| OutboxProtocol.StaleIsWholeSeconds | backend/internal/platform/outbox/dispatcher.go:332-339 | the reclaim interval is the configured one cut to whole seconds, at least one, five minutes by default |
| OutboxProtocol.UnresolvedBecomesEligible | backend/internal/platform/outbox/dispatcher.go:331-357 | from max(StaleClaimAfter, 61 s) after its last write on, an unprocessed row that is not dead is taken by every claim that does not find it locked, unless the batch is full of rows before it, in every run |
| OutboxProtocol.TimelyRunExclusive | backend/internal/platform/outbox/dispatcher.go:331-464 | while no batch outlives StaleClaimAfter: at most one live holder per row, retry_count is the number of applied failures and at most maxRetries + 1, dead exactly when it exceeds maxRetries |
| OutboxProtocol.ResolvedIsFinal | backend/internal/platform/outbox/dispatcher.go:341-357 | under the same premise a dead or processed row is never written and never published again |
| OutboxProtocol.CountsAgreeExactly | backend/internal/platform/outbox/dispatcher.go:431-450 | without the premise, retry_count goes on being the number of applied failures after a results transaction if and only if every count read at claim time is still current |
| OutboxProtocol.CountsTrueExactly | backend/internal/platform/outbox/dispatcher.go:431-450 | over every run: the counts are the numbers of applied failures all along if and only if no results transaction overwrites a newer count |
| OutboxProtocol.DeadRevivedExactly | backend/internal/platform/outbox/dispatcher.go:431-460 | a results transaction brings a dead row back to life if and only if its batch holds a failure of the row counted from below maxRetries |
| OutboxProtocol.DeadForEverExactly | backend/internal/platform/outbox/dispatcher.go:431-460 | in every run, stale holders included, a dead row stays dead over a stretch if and only if no such transaction falls into it |
| OutboxProtocol.StaleHolderRevivesDeadRow | backend/internal/platform/outbox/dispatcher.go:431-450 | a run of two instances in which a late results transaction lowers retry_count and clears is_dead |
| RateLimit.DecisionIsExact | backend/internal/platform/httpx/ratelimit.go:55-79 | a call is admitted if and only if fewer than Limit earlier calls were admitted in the window ending with it, and the reported count is that number |
| RateLimit.WindowNeverExceedsLimit | backend/internal/platform/httpx/ratelimit.go:41-79 | no window of the configured length, wherever it ends, holds more admitted calls than Limit |
| RateLimit.ExpiryIsInvisible | backend/internal/platform/httpx/ratelimit.go:55-79 | key expiry never changes a verdict or the log it leaves |
| RateLimit.ResetIsExact | backend/internal/platform/httpx/ratelimit.go:70-79 | with no admission in between, a rejected caller is admitted later if and only if the returned reset has passed |
| RateLimit.HeadersAreTruthful | backend/internal/platform/httpx/ratelimit.go:154-171 | waiting Retry-After seconds is enough, and the remaining header counts the admissions left |
| RateLimit.HeadersInNumbers | backend/internal/platform/httpx/ratelimit.go:154-171 | Retry-After is the least whole number of seconds that covers the reset, and what is left never goes below zero |
| RateLimit.KeyLivesOneWindow | backend/internal/platform/httpx/ratelimit.go:70-79 | after every call that leaves entries the key expires one window later |
| RateLimit.CountIsAdmitted | backend/internal/platform/httpx/ratelimit.go:70-79 | the count returned with an admission is the number of admissions in its window, itself included |
| RateLimit.Limiter.Eval | backend/internal/platform/httpx/ratelimit.go:55-79 | the script's commands on the stored set give the specified verdict and set |
| RateLimit.Limiter.Limit | backend/internal/platform/httpx/ratelimit.go:118-175 | the middleware's decision and headers follow the script's reply |
| Idempotency.LockCollidesExactly | backend/internal/platform/httpx/idempotency.go:166-167 | inside one scope a cache key equals another key's lock if and only if it is that key with the lock suffix |
| Idempotency.ReplaysAreEarlierSuccesses | backend/internal/platform/httpx/idempotency.go:144-215 | in every interleaving with errors and crashes, what is cached or replayed is the response of an earlier 2xx run with the same body hash |
| Idempotency.OnlySuccessesReplayed | backend/internal/platform/httpx/idempotency.go:168-215 | in every run what is cached or replayed has a status from 200 to 299 and was returned by a handler for the same body |
| Idempotency.StoredExactly | backend/internal/platform/httpx/idempotency.go:209-225 | the cache is written exactly by a store that Redis accepts of a response with a status from 200 to 299, for 24 hours, and by no other step |
| Idempotency.LookupAndLockExactly | backend/internal/platform/httpx/idempotency.go:168-190 | a live entry is replayed to the same body and refused to another; the lock is taken for 30 seconds exactly when Redis answers and no live lock is there |
| Idempotency.HandlersNeverOverlap | backend/internal/platform/httpx/idempotency.go:178-201 | while no request outstays inFlightTTL, handler runs of a key never overlap |
| Idempotency.StepOverlapsExactly | backend/internal/platform/httpx/idempotency.go:178-201 | from a state with at most one request inside, a step opens an overlap if and only if it takes the lock over from a request that has outstayed inFlightTTL |
| Idempotency.OverlapsExactly | backend/internal/platform/httpx/idempotency.go:178-201 | over every run: two requests are ever inside at once if and only if such a step occurs |
| Idempotency.OverlapRun | backend/internal/platform/httpx/idempotency.go:178-201 | a run of 13 steps from the initial state that ends with two handlers running, both within the lifetime of their locks |
| Idempotency.LateRunsLookedUpEarly | backend/internal/platform/httpx/idempotency.go:168-201 | a handler starts over a live entry only if its lookup came before that store or Redis failed it |
| Idempotency.LookupAfterStoreNeverRuns | backend/internal/platform/httpx/idempotency.go:168-177 | a request that looks up after a store and before its expiry is answered by replay or refusal and never runs the handler |
| Idempotency.SettledUntilExpiry | backend/internal/platform/httpx/idempotency.go:144-215 | from a settled state on, no handler runs until the entry expires, as long as Redis answers lookups |
| Idempotency.StoreSettlesExactly | backend/internal/platform/httpx/idempotency.go:178-213 | right after a store the state from which nothing runs until expiry is reached if and only if no request is waiting between lookup and lock or running; in punctual runs, if and only if none is waiting |
| Idempotency.StoreIsFinalExactly | backend/internal/platform/httpx/idempotency.go:144-215 | after a store, no continuation with a working lookup runs a handler before the entry expires if and only if no request was waiting between its lookup and the lock or running; in punctual runs, if and only if none was waiting |
| Idempotency.WaitingRequestRunsAgain | backend/internal/platform/httpx/idempotency.go:180-201 | such a waiting request starts its handler as soon as the lock is dropped |
| Idempotency.DuplicateRun | backend/internal/platform/httpx/idempotency.go:168-213 | a punctual run in which two requests with one key and one body both run the handler |
| Idempotency.LateDropAdmitsOverlap | backend/internal/platform/httpx/idempotency.go:190-194 | the mechanism on any state: the DEL of a late request removes the next holder's lock and two others start their handlers |
| Idempotency.SerialRetryReplays | backend/internal/platform/httpx/idempotency.go:144-215 | one after the other: after a status from 200 to 299, a second request within 24 hours replays or is refused and its handler does not run; after any other status, or later, the handler runs again |
| Idempotency.Middleware.LookupCachedEntry | backend/internal/platform/httpx/idempotency.go:247-266 | a Redis error or no live entry is a miss, a hit is classified by body hash |
| Idempotency.Middleware.Serve | backend/internal/platform/httpx/idempotency.go:144-215 | one undisturbed request moves the two Redis keys exactly as the protocol's steps in sequence |
| StaffInvite.InvitesConverge | backend/internal/modules/identity/service/staff_invite_service.go:113-359 | in any interleaving with crashes and no outside edits: one person per e-mail, one membership per tenant, branch and role, at most one invite created the account |
| StaffInvite.OnlyHarmlessFailures | backend/internal/modules/identity/service/staff_invite_service.go:113-359 | then an invite fails only for its input, an unknown role or branch, or an outage, never with a conflict |
| StaffInvite.MailsGoToCreatedAccounts | backend/internal/modules/identity/service/staff_invite_service.go:234-260 | password mails go once per account, from the invite that created it, after both rows are committed |
| StaffInvite.RetrySucceeds | backend/internal/modules/identity/service/staff_invite_service.go:154-226 | from any crash point an undisturbed invite ends with account, person and membership of its e-mail |
| StaffInvite.SerialOutcome | backend/internal/modules/identity/service/staff_invite_service.go:280-359 | whatever edits came before, exactly when an undisturbed invite creates an account, meets an orphaned person or gets stuck |
| StaffInvite.OnlyGrantableMemberships | backend/internal/modules/identity/service/staff_invite_service.go:113-152 | in every run each new membership grants a role of its tenant, names a branch if the role requires one, and no branch but one of the tenant's |
| StaffInvite.RefusedExactly | backend/internal/modules/identity/service/staff_invite_service.go:113-152 | an undisturbed invite is refused before any write if and only if a field is missing or malformed, the role is unknown, a required branch is missing or the branch is foreign; only the unknown role is not found |
| StaffInvite.StaleEmailReuses | backend/internal/modules/identity/service/staff_invite_service.go:203-222 | a drifted person is reused and takes over the account's address, unless another person has it |
| StaffInvite.RetryAfterSyncLosesPerson | backend/internal/modules/identity/service/staff_invite_service.go:335-359 | after that sync an invite with the old address starts a second identity or gets stuck |
| StaffInvite.RetryReachesExactly | backend/internal/modules/identity/service/staff_invite_service.go:280-359 | after a successful invite, a second one of the address returns the same person if and only if no person with that address had drifted from its account before the first |
| StaffInvite.DoubledRun | backend/internal/modules/identity/service/staff_invite_service.go:280-359 | a run of 14 steps with one address change in which the same request, sent twice, succeeds with person 1 and then with a new person 2 |
| StaffInvite.StuckRun | backend/internal/modules/identity/service/staff_invite_service.go:305-318 | the run in which the account keeps the old address as user name and the retry fails with neither account nor person found |
| StaffInvite.EditsCannotBreak | backend/internal/modules/identity/service/staff_invite_service.go:113-359 | in every run, with realm admins editing and deleting accounts: keys stay unique, a successful invite's rows are committed, an account has one creator and at most one password mail, from it |
| StaffInvite.StaffInviteService.FindOrCreateKeycloakUser | backend/internal/modules/identity/service/staff_invite_service.go:280-333 | find, stale-email reuse, create and recover give the specified phase and realm |
| StaffInvite.StaffInviteService.FindOrCreatePerson | backend/internal/modules/identity/repo/person_repo.go:112-141 | insert on a new sub, refetch on a known one, e-mail conflicts refused |
| StaffInvite.StaffInviteService.FindOrCreateMembership | backend/internal/modules/identity/repo/membership_repo.go:276-307 | one row per quadruple, and the e-mail sync shares its transaction |
| StaffInvite.StaffInviteService.Invite | backend/internal/modules/identity/service/staff_invite_service.go:113-263 | the whole call equals the protocol's actions in sequence, and is refused with nothing written exactly for the listed faults of the request |
| Kitchen.RunKeepsBookkeeping | web/apps/pos-desktop/kitchen_dispatcher.go:190-310 | in every interleaving inflight is exactly the orders queued, being sent or processed, no order has two jobs, and no order's ticket is printed twice by the dispatcher |
| Kitchen.OnlySightedOrders | web/apps/pos-desktop/kitchen_dispatcher.go:230-310 | in every run whatever is queued, sent, printed or counted was sighted before as an online order, pending or accepted, under that table label |
| Kitchen.SightMeans | web/apps/pos-desktop/kitchen_dispatcher.go:230-246 | a sighting of such an order that is not printed yet puts it into the reader's hand as owed, and any other event changes nothing |
| Kitchen.MovesExactly | web/apps/pos-desktop/kitchen_dispatcher.go:247-310 | the reader is held up exactly by a queue of 256 jobs, until the context ends; the worker by an empty one |
| Kitchen.SightingKeptExactly | web/apps/pos-desktop/kitchen_dispatcher.go:247-275 | a sighting leaves a pending job if and only if it does not meet the window between print and release |
| Kitchen.StepLosesExactly | web/apps/pos-desktop/kitchen_dispatcher.go:247-310 | an owed order comes to be neither in the reader's hand nor pending in a step if and only if the reader drops it there: between its failed print and the release, or giving up its send after the context ended |
| Kitchen.OwedLostExactly | web/apps/pos-desktop/kitchen_dispatcher.go:190-310 | over every run: an owed order is lost at some point if and only if such a step occurs |
| Kitchen.RunKeepsOwed | web/apps/pos-desktop/kitchen_dispatcher.go:190-310 | until the context ends an owed sighting is dropped only in that window after a failed print |
| Kitchen.SwallowedSighting | web/apps/pos-desktop/kitchen_dispatcher.go:247-310 | the run in which that happens and both goroutines come to rest |
| Kitchen.DrainPrintsAll | web/apps/pos-desktop/kitchen_dispatcher.go:279-310 | with a working printer, draining the queue prints every queued order and clears it from inflight |
| Kitchen.Dispatcher.Enqueue | web/apps/pos-desktop/kitchen_dispatcher.go:247-267 | the method equals the reader's steps with the worker at rest |
| Kitchen.Dispatcher.PrintNext | web/apps/pos-desktop/kitchen_dispatcher.go:279-310 | the method equals the worker's steps with the reader at rest |
| PaymentLines.AllocationUnique | web/packages/pos-core/src/paymentLines.ts:46-62 | the largest-remainder rule determines the allocation |
| PaymentLines.LargestRemainderMeans | web/packages/pos-core/src/paymentLines.ts:46-62 | the rule in numbers: quotients rounded down, one kurus more for the largest remainders of amount times total, ties by index, adding up to the amount |
| PaymentLines.ShareLinesAre | web/packages/pos-core/src/paymentLines.ts:60-69 | the lines are exactly the positive shares, each as one unit |
| PaymentLines.LineTotalIsNearest | web/packages/pos-core/src/paymentLines.ts:30-32 | a line's total is price times thousandths to the nearest kurus, halves up |
| PaymentLines.BumpsNeedRemainder | web/packages/pos-core/src/paymentLines.ts:46-62 | a leftover kurus goes only to an item with a remainder |
| PaymentLines.SharesAreFair | web/packages/pos-core/src/paymentLines.ts:46-62 | each share is within one kurus of its proportion and not negative, free items get nothing, and no item exceeds its total when the amount does not exceed the items' total |
| PaymentLines.SortByRest | web/packages/pos-core/src/paymentLines.ts:54 | each index once, by remainder, ties by index |
| PaymentLines.Allocate | web/packages/pos-core/src/paymentLines.ts:46-62 | the leftover loop produces a largest-remainder allocation that sums to the amount |
| PaymentLines.BuildPaymentLines | web/packages/pos-core/src/paymentLines.ts:34-69 | no lines for a non-positive amount or free items; otherwise the lines add up to the amount, as the items themselves when the amount is their total |
| PaymentPlan.PaidQtyBy | web/packages/pos-core/src/paymentPlan.ts:98-107 | the map holds, for every item, the units of payments that are neither failed nor voided |
| PaymentPlan.ChargeSettlesDue | web/packages/pos-core/src/rounding.ts:49-81 | amount plus rounding is exactly what was due and within what remains; rounding only on the whole remainder, below one step, within the ceiling, for an enabled method |
| PaymentPlan.RoundingExactly | web/packages/pos-core/src/rounding.ts:49-76 | rounding is granted if and only if it was asked for, the method may round, the payment closes the check, at least one step is due and the ceiling allows it, and it is the rest below one step |
| PaymentPlan.RunNeverOversettles | web/packages/pos-core/src/paymentPlan.ts:98-223 | in every run of orders, payments in any mode and releases: settled plus remaining is the check total, conceded rounding is within its ceiling, live item payments never cover more units than ordered |
| PaymentPlan.ItemPaymentIsExact | web/packages/pos-core/src/paymentPlan.ts:110-150 | an item payment is due the selected unpaid units at their prices, no more than what remains, and records exactly those units of each item |
| PaymentPlan.AmountsDue | web/packages/pos-core/src/paymentPlan.ts:150-175 | a full payment is due what remains, a custom one the entered amount between zero and that |
| PaymentPlan.PaymentLowersRemaining | web/packages/pos-core/src/payment.ts:15-29 | a payment lowers the remainder by what was due, and a full or rounded one leaves nothing |
| PaymentPlan.SplitIsFair | web/packages/pos-core/src/payment.ts:48-51 | splitting among n people, each share recomputed over those left, takes the n-th part from each, one kurus more from the first owed mod n, and nothing is owed after the n-th |
| PaymentPlan.FixedShareCloses | web/packages/pos-core/src/payment.ts:27-51 | one share entered again and again, clamped: after k payments max(0, owed - k times share) remains, a further one is possible if and only if something does, and there are at most n |
| PaymentPlan.LinesExistExactly | web/packages/pos-core/src/paymentPlan.ts:185-194 | the items behind a payment's lines have a positive total if and only if it is an item payment, a priced unit is unpaid, or no unit is |
| PaymentPlan.VoidLeavesPaymentWithoutLines | web/packages/pos-core/src/paymentPlan.ts:185-194 | a run that ends in a payment of 50 kurus without fiscal lines |
| OptionTree.AppendOption | backend/internal/modules/catalog/service/modifier_service.go:294-318 | a row extends the product's last group or starts its next one |
| OptionTree.FoldOptionTree | backend/internal/modules/catalog/service/modifier_service.go:287-321 | the loop over the rows computes the fold the lemmas are about |
| OptionTree.FlattenFold | backend/internal/modules/catalog/service/modifier_service.go:284-321 | folding then flattening gives the rows back if and only if no row without a modifier stands next to another row of its group; otherwise rows are lost |
| OptionTree.ListingFoldsToTree | backend/internal/modules/catalog/repo/modifier_repo.go:362-374 | for what the query returns nothing is lost, and every sellable product with options, attached group and active modifier appears exactly once |
| OptionTree.TreeInColumns | backend/internal/modules/catalog/repo/modifier_repo.go:340-374 | in columns: which products, groups and modifiers stand in the tree, and in which order |
| PriceLines.ModifiersAcceptedExactly | backend/internal/modules/catalog/service/storefront_menu_service.go:262-292 | the modifier loop goes through if and only if the options are distinct, available on the product and within every group's limit, and adds up their deltas |
| PriceLines.LineAcceptedExactly | backend/internal/modules/catalog/service/storefront_menu_service.go:240-302 | a line is accepted if and only if its product is priced, its options are allowed and the price is not negative, and then costs base plus deltas |
| PriceLines.AllowedInColumns | backend/internal/modules/catalog/service/storefront_menu_service.go:122-138 | the rules in columns: no option twice, each active and of an attached group, one of a single-choice group, no more than a positive maximum of a multiple-choice one |
| PriceLines.RefusalIsTruthful | backend/internal/modules/catalog/service/storefront_menu_service.go:240-302 | a refused line names its unpriced product, the first option that breaks a rule with that rule, or the price below zero |
| PriceLines.CartIsPositional | backend/internal/modules/catalog/service/storefront_menu_service.go:239-304 | the cart is priced if and only if every line is, line i standing for line i |
| PriceLines.CartRefusedExactly | backend/internal/modules/catalog/service/storefront_menu_service.go:193-304 | a cart is refused for being empty, for a quantity below one, or for its first refused line with that line's error |
| PriceLines.PriceOneLine | backend/internal/modules/catalog/service/storefront_menu_service.go:240-302 | the loop with its seen and per-group maps agrees with the specification, errors included |
| PriceLines.PriceLines | backend/internal/modules/catalog/service/storefront_menu_service.go:193-305 | the whole cart over the rows of the two queries, in whatever order they come, agrees with the specification |
| Options.ToGroupDTO | web/apps/pos-desktop/options.go:164-184 | active options only, no maximum as 0, required when a minimum is set |
| Options.BuildGroups | web/apps/pos-desktop/options.go:149-162 | groups with something to choose, or none when a required one has nothing |
| Options.BuiltInColumns | web/apps/pos-desktop/options.go:149-184 | which groups the picker shows, with which rules, and exactly when it shows none |
| Options.DefaultSelection | web/packages/pos-core/src/options.ts:62-68 | every group starts with its first required options |
| Options.DefaultsInColumns | web/packages/pos-core/src/options.ts:48-68 | a group starts with as many of its first options as it asks for, one if it is required and asks for none |
| Options.SelectedModifiers | web/packages/pos-core/src/options.ts:99-110 | the chosen options in display order |
| Options.PickedExactly | web/packages/pos-core/src/options.ts:99-110 | what is listed is exactly what is chosen in some group |
| Options.PickedInOrder | web/packages/pos-core/src/options.ts:99-110 | within a group the chosen options are listed in display order |
| Options.TapsKeepCaps | web/packages/pos-core/src/options.ts:74-91 | after any taps every group's selection is free of duplicates, of the group, and within its cap |
| Options.TapSwitches | web/packages/pos-core/src/options.ts:74-91 | a tap chooses or takes back in a single-choice group, switches in a multiple-choice one unless the cap refuses, and leaves the other options alone |
| Options.RequiredStaysAnswered | web/packages/pos-core/src/options.ts:44-91 | a required single-choice group has exactly one choice after any taps |
| Options.TapOrderIsInvisible | web/packages/pos-core/src/options.ts:98-110 | the chosen options depend on what is chosen, not on the order of taps |
| Options.ReadyIsAllowed | web/packages/pos-core/src/options.ts:99-110 | such a selection passes every server rule |
| Options.TapsPriceAgrees | web/packages/pos-core/src/options.ts:49-115 | for one catalog state and any taps the server charges exactly the picker's unit price, or refuses it as negative |
| MenuPricing.VisibleAreWinners | backend/internal/modules/catalog/repo/storefront_menu_repo.go:106-126 | the first row per product in the query's order is the menu that wins under branch, sort order and id |
| MenuPricing.WinnerPrevails | backend/internal/modules/catalog/repo/storefront_menu_repo.go:86-126 | the winner in columns: in force, carrying the product, own menus before common ones, then sort order, then id |
| MenuPricing.WinnerIsUnique | backend/internal/modules/catalog/repo/storefront_menu_repo.go:89-91 | a product has one winning menu |
| MenuPricing.OnMenuHasWinner | backend/internal/modules/catalog/repo/storefront_menu_repo.go:106-126 | every product on some active menu of the branch has a winner |
| MenuPricing.DinersPayWhatTheyAreShown | backend/internal/modules/catalog/repo/storefront_menu_repo.go:150-266 | what is listed as available at a price is exactly what a separate pricing query prices, at that price |
| MenuPricing.ListedInColumns | backend/internal/modules/catalog/repo/storefront_menu_repo.go:86-169 | the listing in columns: which product stands there at which price and whether as available |
| MenuPricing.ListedOnceExactly | backend/internal/modules/catalog/repo/storefront_menu_repo.go:128-169 | a visible product is listed once if and only if it has at most one dine-in row without integrator |
| MenuPricing.SoupListedTwice | backend/internal/modules/catalog/repo/storefront_menu_repo.go:128-169 | consistent tables with two such rows and the listing that shows the product twice, closed and available |
| MenuPricing.ApplyToProducts | backend/internal/modules/catalog/service/branch_override_service.go:155-192 | the listing shows each product the branch has not switched off once, at the branch's price or its own |
| MenuPricing.ListedIsCharged | backend/internal/modules/catalog/repo/storefront_menu_repo.go:340-373 | an active product is listed at a price if and only if the counter prices it so |
| MenuPricing.PricedInColumns | backend/internal/modules/catalog/repo/storefront_menu_repo.go:340-373 | the counter's prices in columns: which products are priced, at the branch's price or their own |
| MenuPricing.CounterMatchesMenuExactly | backend/internal/modules/catalog/repo/storefront_menu_repo.go:97-110 | counter and diner price agree if and only if the branch overrides the price or the winning menu does not change it |
| MenuPricing.CounterChargesWhatItShows | backend/internal/modules/catalog/public/catalog.go:135-168 | end to end: listing, option tree, picker and taps against the server's price of the line |
| GuestMenu.GroupCategories | backend/internal/modules/catalog/service/storefront_menu_service.go:97-119 | the loop over the menu rows computes the fold the lemmas are about |
| GuestMenu.GuestMenuIsExact | backend/internal/modules/catalog/service/storefront_menu_service.go:72-120 | over what the listing query returns no row is lost or moved, each category comes once, each visible product is there, and once if and only if it has at most one dine-in row without integrator |
| GuestMenu.HeadingInColumns | backend/internal/modules/catalog/repo/storefront_menu_repo.go:150-169 | a row stands under its product's active category, or else under the nameless one sorted as 32767; categories by sort order, name and id |
| GuestMenu.GroupModifiers | backend/internal/modules/catalog/service/storefront_menu_service.go:76-95 | the loop over the modifier rows with its map gives each product the fold of its own rows |
| GuestMenu.GuestOptionsAreExact | backend/internal/modules/catalog/repo/storefront_menu_repo.go:194-204 | a listed product shows a modifier in a group if and only if the group is attached and the modifier active in it, with the group's own rules and no group twice |
| DinerCharge.SelectableIsAllowed | backend/internal/modules/catalog/service/storefront_menu_service.go:122-138 | the choices the shown groups and their limits admit are exactly those the server's rules allow |
| DinerCharge.DinerIsChargedAsShown | backend/internal/modules/catalog/service/storefront_menu_service.go:140-161 | end to end for diners: a product shown as available is accepted exactly with such choices and a price not below zero, at the shown price plus the shown differences; one not shown as available is refused |
| LineKey.KeyIdentifies | web/packages/pos-core/src/cart.ts:62-64 | two keys are equal if and only if the options are the same in any order and the trimmed notes are equal |
| LineKey.TrimIsExact | web/packages/pos-core/src/cart.ts:62-64 | a note loses exactly the white space at its ends |
| LineKey.LessIsLexicographic | web/packages/pos-core/src/cart.ts:62-64 | ids are sorted character by character, the shorter first |
| Cart.RunKeepsLinesApart | web/packages/pos-core/src/cart.ts:73-149 | in every run each quantity stays in 1..99 and no two lines share product, guest, options and note |
| Cart.AddIsExact | web/packages/pos-core/src/cart.ts:73-105 | seen as a map from product, options, note and guest to units, adding a product adds its units there, up to 99, and changes nothing else |
| Cart.ChangeIsExact | web/packages/pos-core/src/cart.ts:112-118 | the stepper changes that line's units within 1..99 and nothing else |
| Cart.RemoveIsExact | web/packages/pos-core/src/cart.ts:120-122 | removing a line takes exactly its units away |
| Cart.EditIsExact | web/packages/pos-core/src/cart.ts:133-149 | a note edit moves the line's units to the new note, where they add up to at most 99, and changes nothing else |
| Cart.OverflowInNumbers | web/packages/pos-core/src/cart.ts:133-149 | the units an edit loses are those above 99 under the new note |
| Cart.EditConservesPrice | web/packages/pos-core/src/cart.ts:133-161 | with stable prices it changes the total by exactly the price of those units |
| Cart.PendingRound.AddProductToPending | web/packages/pos-core/src/cart.ts:73-105 | the method with its counter equals the run's step |
| CounterCart.CounterRunIsCartRun | web/packages/pos-core/src/cart.ts:73-105 | what the listing and the picker hand over always meets what the cart asks of an added product |
| CounterCart.RunKeepsBacked | web/packages/pos-core/src/cart.ts:73-149 | in every run filled from the listing and the picker, each line keeps a price, options and deltas the catalog knows and the server allows |
| CounterCart.CartIsChargedAsShown | web/packages/pos-core/src/cart.ts:151-205 | at any moment of such a run over one catalog state the server charges line i at the unit price the cart shows and in all the cart's total; it refuses only an empty round or a price below zero |
| Numpad.PressesKeepField | web/packages/pos-core/src/numpad.ts:36-75 | any keys, from an empty field or a preset below 10^9 kurus, keep the field in its mode's grammar |
| Numpad.DigitIsExact | web/packages/pos-core/src/numpad.ts:36-75 | when a digit is appended, replaces a zero, or is refused |
| Numpad.DoubleZeroIsExact | web/packages/pos-core/src/numpad.ts:42-75 | what the double zero adds in each mode |
| Numpad.CommaAndBackspaceAreExact | web/packages/pos-core/src/numpad.ts:36-75 | one comma for money, never in front; backspace takes the last character |
| Numpad.FirstKeyReplaces | web/packages/pos-core/src/numpad.ts:36-75 | the first key over a preset starts anew if the mode has it |
| Numpad.EveryMoneyTextIsTyped | web/packages/pos-core/src/numpad.ts:42-75 | every text of the money grammar can be typed character by character |
| Numpad.PrintedReadsBack | web/packages/pos-core/src/numpad.ts:78-80 | a printed amount reads back as itself |
| Numpad.ShortTextIsWorth | web/packages/pos-core/src/numpad.ts:78-80 | whole amounts and those with one decimal are worth their digits |
| Numpad.DisplayReadsTheSame | web/packages/pos-core/src/numpad.ts:83-88 | the dotted display is worth what the field holds |
| Numpad.DisplayIsGrouped | web/packages/pos-core/src/numpad.ts:83-88 | only the whole part is grouped, and an empty field shows zero |
| Numpad.GroupedByThree | web/packages/pos-core/src/numpad.ts:83-88 | counted from the right, every fourth character is a dot, and no other |
| Permissions.AllowsByRole | backend/internal/modules/identity/domain/permission.go:53-115 | a request is allowed on a union if and only if one role allows it, wildcards included |
| Permissions.Merge | backend/internal/modules/identity/domain/permission.go:76-102 | the merged set lists exactly what either lists |
| Permissions.ByRole | backend/internal/modules/identity/service/role_service.go:256-265 | each missed role gets exactly its own rows |
| Permissions.UnionOf | backend/internal/modules/identity/service/role_service.go:287-292 | merging role by role gives the union |
| Permissions.RoleService.LoadPermSet | backend/internal/modules/identity/service/role_service.go:207-292 | for every pattern of hits, misses, corrupt entries and failed writes the result is the union of the roles' grants, the cache still matches the database, and every role that can be stored is cached |
| RoleScope.StepLeaksExactly | backend/internal/modules/identity/service/role_service.go:142-178 | from a state without a leak, the one step that opens one is reviving a terminated chain-wide membership of a role that requires a branch |
| RoleScope.ScopeKeptExactly | backend/internal/modules/identity/repo/membership_repo.go:41-64 | over every run: a leak occurs if and only if such a revival does |
| RoleScope.NoLeakInColumns | backend/internal/modules/identity/repo/membership_repo.go:41-64 | in columns: without a revival no live membership without a branch is of a role that is branch-scoped or bound to a branch |
| RoleScope.GrantedExactly | backend/internal/modules/identity/service/membership_service.go:125-171 | in columns, when either service makes a grant, and what row it writes |
| RoleScope.UpdatedExactly | backend/internal/modules/identity/service/role_service.go:142-178 | in columns, when a role is updated and what becomes of its flag |
| RoleScope.RevivedGrantLeaks | backend/internal/modules/identity/service/membership_service.go:174-186 | the run of five accepted steps that leaks |
| RoleScope.Services.UpdateRole | backend/internal/modules/identity/service/role_service.go:142-178 | the flip is refused with the count exactly when live chain-wide grants exist |
| RoleScope.Services.CountChainWideForRole | backend/internal/modules/identity/repo/membership_repo.go:50-64 | counts the chain-wide memberships of the role that are not terminated |
| RoleScope.Services.Create | backend/internal/modules/identity/service/membership_service.go:125-171 | granted exactly when the role exists, has the branch it needs and the grant is new |
| RoleScope.Services.FindOrCreate | backend/internal/modules/identity/repo/membership_repo.go:276-307 | the same grant, with an existing row returned as it is |
| Billing.SplitIsHalfUp | backend/internal/modules/billing/service/billing_service.go:283-291 | the tax is the exact share rounded half up, and net plus tax is gross |
| Billing.TaxSumNearExact | backend/internal/modules/billing/service/billing_service.go:283-317 | n lines err by at most n/2 kurus in all |
| Billing.CalculateTotals | backend/internal/modules/billing/service/billing_service.go:295-317 | the total is the sum of quantity times unit price, and the tax within half a kurus per line |
| Billing.NumbersAreConsecutive | backend/internal/modules/billing/repo/invoice_repo.go:217-227 | served one at a time, a tenant's numbers of a year are 1..n in order, one invoice per key |

## Left out

- The Keycloak, NATS, Redis and Postgres clients: their calls are the atomic steps of the models, with the
  unique keys, row locks and atomic scripts the program relies on. JetStream deduplication is not used.
- Backoff.BackoffFloorExact: from retry 63 on the float no longer fits 64 bits and its conversion is left to
  the platform, so any integer is taken as its outcome.
- OutboxProtocol.UnresolvedBecomesEligible: database instants are exact; Postgres rounds them to microseconds.
- Instance configuration of the outbox (metrics, pending reports, poll interval, subject names): no effect on rows.
- Clocks: application servers, Redis and Postgres share one clock in every model.
- RateLimit.Limiter.Limit: a Redis error is answered with 503 and does not change the log, so it is not a step.
- Body hashing, header capture and the JSON form of idempotency entries: values are compared directly.
- The status of a membership that an invite finds already there is not part of StaffInvite; RoleScope has it.
- Kitchen reconnects (connectLoop), the printed-order file and the receipt: `Add` then `Has` is all that is used.
- JavaScript number limits in money code: integers and decimals are exact.
- RoleScope.ScopeKeptExactly: each step is a committed transaction; a count and a concurrent insert that overlap
  under read committed are not interleaved, and role deletion is not a step.
- RoleScope.Services.Create: whether a named branch exists is asked of another module before the write and is not
  part of this model.
- Billing.NumbersAreConsecutive: concurrent invoices count the same rows and can take the same number; only serial
  service is stated. Submission to the billing provider is not part of this model.
- Numpad.PrintedReadsBack: signs, exponents and other forms parseFloat reads are not part of the field's grammar.
- Currency, image, description and cost columns of the menu queries.
- GuestMenu.GuestOptionsAreExact: the order of modifiers within a group is left open.
- MenuPricing.DinersPayWhatTheyAreShown: the order of listed rows within a category is left open.
- The option cache's time to live (fetchCached): all components read one catalog state.
- Order notes, hints and price labels built from options: text without a rule about money.
