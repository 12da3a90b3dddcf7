# Billing journals, batch algorithms and send accounting: a verified model

A Dafny model of the parts of this repository where interleavings, retries and
arithmetic decide whether money, mail and consent come out right. `dafny verify
dfyconfig.toml` checks all of it.

Every database transaction is one atomic step. The payment provider is a second party
that may refuse a call, perform it and lose the answer, perform it late, or move on its
own; a process may die between any two steps. A protocol is a state with a `Next` over
actions and a `Run` over a sequence of them, so a statement about all runs is a statement
about every interleaving. Loops and objects that the code updates in place are methods and
classes here, each proved against the functions of its module.

| File | Models |
|---|---|
| `Overage.dfy` | the usage-meter journal: pin a step, post it, clear the pin |
| `Management.dfy` | the durable request machine for subscription changes and its driver loop |
| `Projection.dfy` | subscription events applied under a watermark |
| `Leases.dfy`, `Customers.dfy` | Checkout leases, and creation of the first Customer |
| `Erasure.dfy`, `LeasedRows.dfy` | closing every remote obligation before a team is deleted, and what that may take on trust about leases |
| `Contacts.dfy`, `ContactFields.dfy` | the contact batch: collapse and write once, and what it leaves in each field |
| `Idempotency.dfy` | claims, takeovers, commits and replays of an idempotency key |
| `Keyset.dfy` | keyset pagination and walks over changing tables |
| `Quota.dfy`, `LockOrder.dfy` | day groups, prefix parking, reservations, and the order of row locks |
| `Window.dfy` | the swept fixed-window counter and the limits on it |
| `Probation.dfy` | nested probation wrappers and the day ledger |
| `HeaderLines.dfy`, `Bcc.dfy`, `BccTwice.dfy`, `Submission.dfy` | the Bcc rewrite over folded headers, the recipient split, the submission server's counters |
| `Outbox.dfy` | consent-gated conversion deliveries |
| `Proof.dfy` | the signed consent proof |

## Findings

Where a promise is not kept on all inputs, the model keeps the code as it is, names an
input, and states exactly when the promise holds.

- `packages/billing/src/subscription.ts:610-623` raises the reported counter without
  looking at an outstanding pin. If that pin was recorded with its answer lost, a stretch
  is billed twice (`Overage.UpgradeOverALostAnswerBillsTwice`). The books stay exact over a
  whole run if and only if no upgrade moves the counter over a recorded pin
  (`Overage.BooksStayExactExactly`).
- The same update can pass a pin that was not recorded. Then the period is stuck: nothing of
  it is pinned or billed again (`Overage.UpgradeStrandsAPin`, `Overage.StuckPinIsNeverPassed`;
  exact condition in `Overage.StrandsExactly`). Reporters count no failure for it as long as
  the team's terms verify and name the same customer, and count one otherwise
  (`Overage.StuckPinIsSilentExactly`).
- The second transaction of a management stage trusts that its driver armed a step, but
  does not compare which; an overtaken driver can send a step nobody armed
  (`Management.OvertakenDriverSendsAnUnarmedStep`). A write was armed if and only if its
  locked row stands at creating, or at pending after having stood at creating at that step
  (`Management.WriteIsArmedExactly`); with the step compared too, every write is armed
  (`Management.GuardArmsEveryWrite`).
- More mailboxes need a payment only above zero seats: after a delivery that revoked the plan,
  the next one can bring back more seats than before with nothing paid
  (`Projection.RevokedSeatsReturnUnpaid`; exact condition in `Projection.UnpaidGrowthExactly`).
- Team erasure passes over a completed lease without a stored session. A creation whose answer
  was lost, followed by another subscription that matches the lease's terms, leaves such a
  lease with a session that can still be paid (`LeasedRows.CompletedLeaseMayStayPayable`).
  Every such lease may be left payable, and no other kind is (`Erasure.TeamRows.Erase`,
  `LeasedRows.PassedOverMayBePayableExactly`).
- Completing and releasing an idempotency claim check neither owner nor body. After a
  takeover a key can replay the ids of another body's emails
  (`Idempotency.LateOwnerAnswersAnotherBody`; exact condition over runs in
  `Idempotency.RunIsFaithfulExactly`).
- The comment at `apps/api/src/app.ts:4025-4027` says the parked tail is what per-item
  reservations would have parked. That holds for every room exactly when no item is smaller
  than one before it (`Quota.HeadAgreesForEveryRoom`).
- Sorted days keep batches from deadlocking on the day counters, but each reservation also
  locks an hourly row, and around midnight those can close a cycle
  (`LockOrder.MidnightHourCanCycle`). A batch can deadlock with an orderly one if and only if
  its team is not on a monthly plan and a group is counted at or past a later group's day
  (`LockOrder.CanDeadlockExactly`).
- What the Bcc rewrite writes does not read back when a stray CR meets a bare LF, or when the
  new field holds a line feed; addresses beyond Latin-1 are written by the low bytes of their
  characters, which can be one (`Bcc.ReadsBackExactly`, `Bcc.FieldFitsExactly`,
  `Bcc.FoldedAddressBreaksTheField`).
- Nor is the rewrite idempotent where a stray CR ends the last of several kept lines, or where
  the new field leaves a line or a break that the second rewrite takes for the client's
  (`BccTwice.IdempotentExactly`, `BccTwice.FoldedAddressIsRewrittenAgain`).
- A batch of contacts lets a later `unsubscribed: false` hide an earlier `true`
  (`Contacts.ConsentAgreesExactly`, `Contacts.LaterFalseLosesAnOptOut`).
- Before 10^9 seconds a consent proof with a leading zero in its expiry is accepted though it
  is never printed (`Proof.LeadingZeroIsAccepted`).

## Model

| member | source | states |
|---|---|---|
| Overage.BillingIsConserved | packages/billing/src/overage.ts:123-222 | over every interleaving of sends, releases, re-bindings, upgrades, reporters, lost answers and crashes in which no upgrade moves the counter over a recorded pin, what is billed plus what upgrades settled is the reported counter or the pinned one, the bill never passes the highest use beyond the included volume, and no two billed stretches overlap |
| Overage.BooksStayExactExactly | packages/billing/src/subscription.ts:610-623 | the books are exact in every state of a run if and only if no upgrade of it moves the counter over a recorded pin |
| Overage.UpgradeKeepsBooksExactly | packages/billing/src/subscription.ts:610-623 | one upgrade keeps the books exact if and only if it moves nothing or no pinned step is recorded beyond the counter |
| Overage.StrandsExactly | packages/billing/src/subscription.ts:610-623 | a step leaves the pin behind the counter if and only if it is an upgrade that settles at least to the pin |
| Overage.StuckPinIsNeverPassed | packages/billing/src/overage.ts:142-144 | once the pin is behind the counter nothing of the period is pinned or posted again, in any continuation |
| Overage.StuckPinIsSilentExactly | packages/billing/src/overage.ts:120-144 | with the pin behind the counter a reporter finds nothing to do if and only if the team is a system one or its terms verify and name the same customer; otherwise it counts a failure |
| Overage.UpgradeStrandsAPin | packages/billing/src/subscription.ts:610-623 | a run with exact books after which whatever is sent stays unbilled |
| Overage.UpgradeOverALostAnswerBillsTwice | packages/billing/src/subscription.ts:610-623 | a run in which an upgrade over a recorded but unacknowledged pin ends with 70 billed for 50 used |
| Overage.ReleaseLeavesBillAboveUse | packages/core/src/quota.ts:207-224 | a run in which use given back after it was billed leaves the bill above the current use |
| Overage.BillStaysWithinUseExactly | packages/core/src/quota.ts:207-224 | over every run with exact books, what is billed or pinned stays within the current use beyond the volume in every state if and only if no release takes more than the use that is not yet billed or pinned |
| Overage.OnlyAReleaseUndercutsTheBill | packages/core/src/quota.ts:207-224 | a single step takes the use below what is billed or pinned if and only if it is a release of more than the difference |
| Overage.BillIsClaimed | packages/billing/src/overage.ts:142-165 | the bill is what is claimed by the counter and the pin, but for a pin not recorded yet, and exceeds the use only after a release |
| Overage.WithoutReleasesUseOnlyGrows | packages/billing/src/overage.ts:142-165 | without releases the highest use is the current one, so the bound of the main result is accepted minus included |
| Overage.CleanReport | packages/billing/src/overage.ts:142-222 | one reporter running both transactions undisturbed settles exactly its pinned step, and the bill then equals accepted minus included if and only if no older pin was waiting |
| Overage.RecordPinned | packages/billing/src/overage.ts:196-208 | posting the pinned step again, by any reporter and after any lost answer, leaves the provider with exactly one event for it |
| Overage.StepKeepsInv | packages/billing/src/overage.ts:98-234 | every single step keeps the chain of stretches from zero to the reported counter and at most one recorded pin beyond it |
| Overage.UsageReporter.ReportOverage | packages/billing/src/overage.ts:98-234 | over candidates of different periods `reported` is the number of periods that can be billed and whose event the provider answers for, and `failed` the number of those that cannot be billed or are not answered for; rows, provider events and the events sent, with their times, are those of the candidates one by one in order |
| Overage.PinsExactly | packages/billing/src/overage.ts:80-172 | the first transaction pins a step if and only if the row has verified terms of the same customer, is no system team, has a step ahead of the counter, and the period ended at most 35 days and a second ago or still runs; it refuses if and only if the terms do not verify, the customer differs, or a step is due past that time; the pin is the old one or what was used beyond the volume |
| Overage.PostsExactly | packages/billing/src/overage.ts:182-222 | the second transaction posts if and only if the step is still pinned under the same terms and customer and still in the window, and moves the counter if and only if the provider answers too; an event already recorded is not recorded again |
| Overage.PostsAreTimely | packages/billing/src/overage.ts:80-86 | every event sent over every run bills a stretch forwards and is dated now while the period runs and one second before its end afterwards: never after now and never more than 35 days back |
| Overage.ReportOneExactly | packages/billing/src/overage.ts:116-231 | when one candidate is reported, failed or skipped, and the row and the events it leaves, in terms of its period at the start |
| Overage.PostOfOneExactly | packages/billing/src/overage.ts:196-208 | a candidate sends one event with the customer, the stretch and the time of its period if that can be billed, and nothing otherwise |
| Overage.CountersAreExact | packages/billing/src/overage.ts:113-234 | the counters of a pass are the numbers of candidates that are reported and failed by the books at its start |
| Overage.OtherStepsExactly | packages/core/src/quota.ts:123-224 | traffic moves the use alone and never below zero, a re-binding that would change the volume is no binding of this period, and neither posts |
| Overage.ReportOneIsTwoSteps | packages/billing/src/overage.ts:116-231 | one candidate of the loop is the two journal steps for its period and touches no other period, so the results about runs hold of the loop |
| Overage.CountersStayWithinCandidates | packages/billing/src/overage.ts:222-234 | reported and failed together never exceed the candidates |
| Management.RequestsAreSafe | packages/billing/src/mailbox-management.ts:320-333 | in every reachable state at most one request of a team is open, no step of a request was armed twice, and none returned to prepared more than twice |
| Management.RowsOnlyMoveForward | packages/billing/src/mailbox-management.ts:488-698 | over every run confirmed and expired are absorbing, scheduled ends only as confirmed or expired, the step rank never rises and returns to prepared only accumulate |
| Management.StepMovesRows | packages/billing/src/mailbox-management.ts:416-710 | each transaction moves each row forward: a return to prepared strictly lowers the step in release, create, configure or release, update, and nothing else changes the step |
| Management.OwnWritesAreArmedAndUnique | packages/billing/src/mailbox-management.ts:453-478 | a write sent at the step its driver armed was committed as creating first, and is sent that way at most once over every run |
| Management.WriteIsArmedExactly | packages/billing/src/mailbox-management.ts:480-624 | a write about to be sent was armed if and only if its locked row is creating, or is pending and has stood at creating at this step; from prepared it never was |
| Management.ArmedExactly | packages/billing/src/mailbox-management.ts:453-478 | over every run a step was armed if and only if its row has stood at it as creating |
| Management.GuardArmsEveryWrite | packages/billing/src/mailbox-management.ts:480-492 | if the second transaction also compared the armed step with the row's, every write of every run would be armed first and sent at most once |
| Management.PendingWriteMayBeArmed | packages/billing/src/mailbox-management.ts:480-624 | a run after which a step is sent from pending that was armed |
| Management.PendingWriteMayBeUnarmed | packages/billing/src/mailbox-management.ts:480-624 | a run after which a step is sent from pending that was not |
| Management.OvertakenDriverSendsAnUnarmedStep | packages/billing/src/mailbox-management.ts:480-624 | a run in which a driver armed for one step sends another step that nobody armed |
| Management.ProjectMoves | packages/billing/src/mailbox-lifecycle.ts:384-442 | the subscription webhook never reopens a request and moves every row forward |
| Management.ManagementDriver.RunStage | packages/billing/src/mailbox-management.ts:446-710 | both transactions of a stage with anything in between; a further stage is asked for if and only if the row stands at prepared, the deployment may write and the plan allows the change, and then it just returned there |
| Management.ManagementDriver.Manage | packages/billing/src/mailbox-management.ts:738-743 | the driver loop ends within three of its four stages under any interleaving, so its fall-through is never reached; each stage but the last asked for the next one and the last did not |
| Management.SettlesExactly | packages/billing/src/mailbox-management.ts:616-698 | a readable read-back confirms, schedules, returns to prepared or ends an open row if and only if it shows the change, the schedule as asked, a step half done, or the change void or the contract over: cancel_at_period_end set for a cancellation and clear for a resumption, the asked seats with a confirmed payment for an increase, the schedule gone for a decrease to the seats already held |
| Management.StageDecidesExactly | packages/billing/src/mailbox-management.ts:480-624 | a write is sent if and only if the driver armed the row, the row is open, writable and not past its contract, and the step may still be sent; what becomes of the row in each case in which nothing readable comes back |
| Management.ActionsExactly | packages/billing/src/mailbox-management.ts:446-710 | which of these each step of a run performs: a rolled back stage has sent its write all the same, a driver remembers the step it armed, and the webhook projects every row and nothing else |
| Management.ReadBackDecides | packages/billing/src/mailbox-management.ts:616-698 | after a successful call, or without one, a readable read-back leaves the row confirmed, scheduled, prepared or expired if and only if it shows that |
| Management.ReadBackRecordsExactly | packages/billing/src/mailbox-management.ts:616-698 | the step, schedule and invoice that a readable read-back leaves in the row |
| Management.TurnDecides | packages/billing/src/mailbox-management.ts:446-710 | the same for both transactions of a stage together, with anything in between |
| Management.ConfirmedMeansShown | packages/billing/src/mailbox-management.ts:616-698 | over every run a request becomes confirmed only by a committed stage whose read-back shows its change, or by a projection that finds it paid or fulfilled |
| Management.ScheduledMeansShown | packages/billing/src/mailbox-management.ts:654-665 | a request becomes scheduled only when the schedule is read back as asked after it was configured |
| Management.ArmsExactly | packages/billing/src/mailbox-management.ts:453-478 | a row is armed if and only if it is prepared, the deployment may write, the buyer of an increase may still buy, and the plan allows an increase or a resumption; otherwise a prepared row is closed |
| Management.PreparesExactly | packages/billing/src/mailbox-management.ts:312-444 | a request is written if and only if none is open, the change can be made and the schedules can be read, and it says what was asked for and which step comes first |
| Management.ReconcilesExactly | packages/billing/src/mailbox-management.ts:312-335 | asking for reconciliation projects the subscription if and only if no request is open |
| Management.ProjectsExactly | packages/billing/src/mailbox-lifecycle.ts:384-442 | the webhook confirms a request if and only if it is paid or fulfilled, ends it if and only if it is void or its contract is over, and leaves it alone otherwise |
| Management.OtherRowsExactly | packages/billing/src/mailbox-management.ts:625-690 | a stage touches other rows only by releasing the schedule they stood in or by projecting the subscription |
| Management.AgainMeansComeback | packages/billing/src/mailbox-management.ts:699-710 | a stage that asks for another one has counted exactly one more return to prepared |
| Projection.RunIsMonotone | packages/billing/src/mailbox-lifecycle.ts:225-241 | for every order of deliveries and grants the stored watermark and creation time never decrease, and another subscription enters only with a strictly later creation time |
| Projection.ReplacedNeverReturns | packages/billing/src/mailbox-lifecycle.ts:279-300 | a subscription that was replaced is never bound again, whatever is delivered afterwards |
| Projection.OccupiedPlanIsNeverDisplaced | packages/billing/src/mailbox-lifecycle.ts:279-300 | while the plan stays occupied its subscription stays the same |
| Projection.StepIsMonotone | packages/billing/src/mailbox-lifecycle.ts:225-460 | what a single delivery or internal grant may do to watermark, creation time and binding |
| Projection.RedeliveryIsIdempotent | packages/billing/src/mailbox-lifecycle.ts:225-241 | delivering the same event twice leaves the row as delivering it once |
| Projection.SeatsGrowOnlyPaid | packages/billing/src/mailbox-lifecycle.ts:336-362 | over every run that ends under the subscription it began with, more seats mean that one delivery of it showed a payment, or the end of the contract, for at least so many, or that the plan stood at zero seats on the way |
| Projection.UnpaidGrowthExactly | packages/billing/src/mailbox-lifecycle.ts:336-362 | a delivery that shows neither can raise a bound plan's seats if and only if the plan stands at zero seats |
| Projection.RevokedSeatsReturnUnpaid | packages/billing/src/mailbox-lifecycle.ts:279-291 | a run of two deliveries that takes five paid seats to ten unpaid ones over a revocation |
| Projection.PlanStore.ApplyMailboxProjection | packages/billing/src/mailbox-lifecycle.ts:194-474 | one delivery is applied, revokes or is turned down with exactly the verdict its times, customer, team and row call for, and the first sound event of a team is always applied; it never lowers the watermark or the creation time, binds another subscription only with a later creation time and never over an occupied plan, revokes only for the plan's own subscription, raises seats above zero only against a payment or the end of the contract, and changes nothing otherwise |
| Projection.AppliesExactly | packages/billing/src/mailbox-lifecycle.ts:194-474 | the exact condition of each reason a delivery can be answered with, and the row it leaves |
| Projection.SoundEventsAreApplied | packages/billing/src/mailbox-lifecycle.ts:223-459 | a timed event of a known customer and a team that is no system one is always applied on an empty row, and on a row that is not taken whenever its subscription is younger, its event not older, and a reduction not held back |
| Projection.GrantsExactly | packages/core/src/mailbox-internal-license.ts:161-256 | an internal grant fills only an empty row, and revoking one touches no subscription's row |
| Leases.OneCallPerLease | packages/billing/src/mailbox-lifecycle.ts:1028-1211 | over every interleaving at most one lease of a team is open and each lease causes at most one Checkout creation call |
| Leases.ExpiredIsNeverPaid | packages/billing/src/mailbox-lifecycle.ts:501-549 | once a lease is recorded expired no session of it is open, paid or still to land, in any continuation |
| Leases.StepKeepsInv | packages/billing/src/mailbox-lifecycle.ts:1396-1444 | purchase, abandon, Pix close, fulfilment, erasure, late landings and provider moves all keep: one session per lease, calls only from one claim, expired means dead |
| Leases.CheckoutDesk.AbandonMailboxCheckout | packages/billing/src/mailbox-lifecycle.ts:487-551 | leaving a purchase releases an unsent lease at once; a session found open is asked to expire, and the answer is abandoned with the session closed and the lease expired when it expires, already paid with the lease completed when it was paid first and names a subscription, and still pending only if the session was unreadable, still open after the call or unread, or paid without a subscription |
| Leases.CheckoutDesk.CloseOpenMailboxCheckout | packages/billing/src/mailbox-lifecycle.ts:1396-1444 | the same for the webhook of a paid Pix, which records a paid session even where it names no subscription; it stays pending if and only if the lease is still open |
| Leases.BeginsExactly | packages/billing/src/mailbox-lifecycle.ts:1028-1130 | a buyer gets the right to create if and only if nothing blocks it and no lease is open or the open one is prepared under the same terms, and the lease is marked before the call |
| Leases.FinishCallsExactly | packages/billing/src/mailbox-lifecycle.ts:1131-1186 | the provider is called if and only if the buyer holds the right, nothing blocks it and its lease is still open under the same terms, and no other lease changes |
| Leases.FinishRecordsExactly | packages/billing/src/mailbox-lifecycle.ts:1153-1211 | the lease then says what its session proves: ready while it can be paid, completed when it made a subscription, expired when it is closed |
| Leases.RecordsExactly | packages/billing/src/mailbox-lifecycle.ts:1153-1211 | a session is recorded if and only if it belongs to the lease and the lease names it or none |
| Leases.CreatesExactly | packages/billing/src/mailbox-lifecycle.ts:1153-1186 | what each outcome of a creation call leaves at the provider |
| Leases.UndisturbedPurchase | packages/billing/src/mailbox-lifecycle.ts:1021-1216 | with nothing open, an undisturbed purchase ends with one call and a ready lease whose session can be paid |
| Leases.OthersMoveExactly | packages/billing/src/mailbox-lifecycle.ts:461-474 | what fulfilment, a landing call and the provider's own moves do |
| Leases.ErasesExactly | packages/billing/src/mailbox-erasure.ts:212-248 | team erasure records what the session of a lease proves, whatever the lease said |
| Customers.AtMostOneCustomerCall | packages/billing/src/mailbox-lifecycle.ts:693-860 | over every interleaving of creators, those of the Send checkout among them, resolutions, links and crashes from the start a team sends at most one Customer creation call, and a linked Customer is never replaced in any continuation |
| Customers.StepKeepsInv | packages/billing/src/mailbox-lifecycle.ts:608-688 | resolving an ambiguous request never re-opens the right to create |
| Customers.StepsExactly | packages/billing/src/mailbox-lifecycle.ts:608-860 | who holds the right to create after each action, when the call is sent, and which Customer each action links |
| Customers.LostAnswerNeedsResolution | packages/billing/src/mailbox-lifecycle.ts:608-688 | after a lost answer no continuation creates again, and the team gets a Customer if and only if the Send checkout links one or the request is resolved to the one that was created |
| Erasure.TeamRows.Erase | packages/billing/src/mailbox-erasure.ts:106-325 | the delete runs only for the owner, a team whose Customer is the one first read, no Customer request still creating, and leases and plan of this Customer and mode; each failing check gives its own code without a call to the provider; then every lease not passed over has its session closed, every linked Mail subscription has ended and so has every Mail subscription a faithful listing shows; with the sessions the purchase protocol leaves, no lease is payable but, at most, the completed ones passed over; the rows then state only confirmed facts, and on any refusal they are unchanged; only sessions of leases not passed over are expired, the Send subscription is never cancelled and cancellations come last; a calm provider with everything in order always lets it through |
| Erasure.RefusesExactly | packages/billing/src/mailbox-erasure.ts:118-192 | erasure is refused before the provider is asked if and only if one of the checks fails, with the code of the first that does |
| Erasure.SkippedExactly | packages/billing/src/mailbox-erasure.ts:212-222 | which lease rows the provider is not asked about |
| Erasure.TeamRows.CloseObligations | packages/billing/src/mailbox-erasure.ts:193-300 | the provider phase as a whole: nothing left running but, at most, the session of a completed lease passed over; facts proved; order of calls |
| LeasedRows.PassedOverRowsAreQuiet | packages/billing/src/mailbox-erasure.ts:212-215 | after every run of purchases, and whatever the provider does while the rows are locked, a lease has at most one session and a prepared or expired row that is passed over has none that can be paid |
| LeasedRows.PassedOverMayBePayableExactly | packages/billing/src/mailbox-erasure.ts:213-222 | a row that is passed over can be met with a payable session, after some run of purchases and provider moves, if and only if it is completed |
| LeasedRows.CompletedLeaseMayStayPayable | packages/billing/src/mailbox-erasure.ts:215-221 | for every completed lease that is passed over, a run that leaves it with a session that can still be paid |
| Erasure.ClosedForGood | packages/billing/src/mailbox-erasure.ts:212-248 | what closing left unpayable stays so, whatever the provider does next |
| Erasure.CloseSession | packages/billing/src/mailbox-erasure.ts:78-99 | on success the session is expired or complete, whatever the expire call did or lost |
| Erasure.CloseSessions | packages/billing/src/mailbox-erasure.ts:212-248 | every lease that may have reached the provider gets a fact proved by its closed session, and only expire calls for sessions of such leases are made |
| Erasure.ReadListing | packages/billing/src/mailbox-erasure.ts:259-284 | paging ends on any listing over finitely many ids because a repeated cursor stops it, and a faithful listing is read completely even while newer subscriptions appear |
| Erasure.CursorIsStable | packages/billing/src/mailbox-erasure.ts:261-283 | what follows a cursor does not move when newer entries are put in front |
| Erasure.CancelAll | packages/billing/src/mailbox-erasure.ts:285-302 | on success every found subscription has ended and only found ones were cancelled |
| Erasure.RecordIsTruthful | packages/billing/src/mailbox-erasure.ts:303-315 | the lease rows written before the delete say what the provider's sessions say |
| Contacts.CollapseAgrees | apps/api/src/app.ts:1043-1077 | for every upsert batch whose associations exist, the collapsed rows give the same contacts, names, properties, segments and topic choices as upserting the items one at a time |
| Contacts.ConsentAgreesExactly | apps/api/src/app.ts:1073-1073 | a contact comes out identical, opt-out included, if and only if it was already opted out, no item opts out, or the last choice made opts out |
| Contacts.LaterFalseLosesAnOptOut | apps/api/src/app.ts:1073-1073 | a two-item batch that keeps an address subscribed which one-at-a-time upserts opt out |
| Contacts.SkippedExactlyWhenClean | apps/api/src/app.ts:1194-1219 | a row is not written exactly when writing would change nothing, so the shortcut is invisible |
| Contacts.FirstWinsAgrees | apps/api/src/app.ts:1058-1068 | in skip and error mode the batch leaves exactly the contacts of one item at a time |
| Contacts.AnswersAgree | apps/api/src/app.ts:1079-1091 | skip answers equal the one-at-a-time answers, error mode fails the same items, upsert answers each item as its row's first item |
| Contacts.BatchOfOne | apps/api/src/app.ts:974-1001 | a batch of one item is that item alone, in every mode |
| Contacts.RowsCoverItems | apps/api/src/app.ts:1014-1078 | each valid item belongs to the row of its email, rows hold their items in order and the first opened it |
| Contacts.Gather | apps/api/src/app.ts:1014-1078 | the first pass builds exactly the collapsed rows and answers malformed and duplicate items |
| Contacts.Classify | apps/api/src/app.ts:1131-1147 | every row is judged and all its items answered, in any order of rows |
| Contacts.ContactStore.Batch | apps/api/src/app.ts:1001-1253 | the whole operation: contacts and answers, and in strict mode no write at all once an item failed |
| ContactFields.RowsSayTheItems | apps/api/src/app.ts:1043-1078 | each collapsed row holds, field by field, the last value its counting items give: the first item of an email, and in upsert mode all of them |
| ContactFields.WritesExactly | apps/api/src/app.ts:1131-1253 | for any associations an email is written if and only if it is new or upserted and names nothing unknown, and its contact is then what the items say; all else stays |
| ContactFields.AnswersExactly | apps/api/src/app.ts:1014-1253 | the answer to every item in every mode and with any associations, the two not-found ones among them |
| Idempotency.OneCommitPerLife | packages/core/src/idempotency.ts:29-88 | over every run with takeovers, late owners, releases and purges, a later transaction commits only after the earlier record's life is over; until then the key cannot be claimed and replays the earlier ids |
| Idempotency.RunIsFaithfulExactly | packages/core/src/idempotency.ts:76-88 | stored body and stored ids belong together in every state of a run if and only if no request of it completes an open claim made for another body |
| Idempotency.FaithfulnessIsKeptExactly | packages/core/src/idempotency.ts:76-88 | a step breaks the link between stored body and stored ids exactly when it completes an open claim made for another body |
| Idempotency.OneBodyIsFaithful | apps/api/src/app.ts:3699-3734 | with one body under the key every run stays faithful |
| Idempotency.PromptRunsAreFaithful | packages/core/src/idempotency.ts:14-16 | if every request ends within the ten-minute lease, at most one holds the key and every replay is faithful, for any mix of bodies |
| Idempotency.LateOwnerAnswersAnotherBody | apps/api/src/app.ts:4075-4124 | a run of six steps after which a body replays the ids of another body's emails |
| Idempotency.FaithfulReplays | packages/core/src/idempotency.ts:63-67 | in a faithful state a replay returns ids committed for the very body asked with |
| Idempotency.ClaimIsHeldExactly | packages/core/src/idempotency.ts:29-73 | a new claim holds the key for a day: the same body is told it is in flight and may take over after ten minutes, another body is refused, and past the day the key is free |
| Idempotency.FinishIsReplayedExactly | packages/core/src/idempotency.ts:75-91 | finishing under an open claim commits once and the key then replays those ids to the claim's body, and to no other, until the day is over |
| Idempotency.RowChangesExactly | packages/core/src/idempotency.ts:75-110 | which steps free the key, commit or change its row, and which requests they leave at work |
| Keyset.WalkListsStableRowsOnce | apps/api/src/app.ts:671-695 | walking after-cursors to the end lists rows in order, at most once, only rows present when their page was read, and every row present throughout, for any limits and any changes that keep sort keys |
| Keyset.PageIsExact | apps/api/src/app.ts:679-692 | a page is the least rows past the cursor, full when more follow and everything otherwise |
| Keyset.RefusesExactly | apps/api/src/app.ts:679-692 | a request is refused if and only if its cursor names no row; `before` wins over `after`, a page holds at most its limit, and twenty rows without one |
| Keyset.OrderIsTotal | packages/db/src/keyset.ts:11-21 | rows are ordered by creation and equal creation by id, strictly and totally |
| Keyset.BeforeIsThePrecedingPage | apps/api/src/app.ts:688-693 | on a static table before the first row of a page is the preceding page, with more before it exactly when that page was not the first |
| Keyset.StaticWalkEnds | apps/api/src/app.ts:671-695 | on a static table a walk with any limit ends and lists exactly what remains |
| Keyset.StaticWalkIsShort | apps/api/src/app.ts:687-690 | it takes the fewest pages that hold the rows |
| Keyset.MillisecondCursorReadmits | packages/db/src/keyset.ts:4-10 | a cursor cut to milliseconds readmits its own row whenever the row carries microseconds |
| Quota.ReserveBooksAllOrNothing | packages/core/src/quota.ts:42-224 | a reservation books its count on its day (and period) within every cap or nothing at all, a refusal hands the period back, and a release undoes it |
| Quota.RoomIsReservable | packages/core/src/quota.ts:297-299 | after a refusal by the day, as much as the room it left is still reserved |
| Quota.ReservesExactly | packages/core/src/quota.ts:42-257 | a reservation is made if and only if the count fits the day and the period, and a refusal names the counter without room, what it held and what caps it: half above the daily limit or the operator's ceiling, the included volume or, with overage on, its hard cap |
| Quota.ReleasesExactly | packages/core/src/quota.ts:99-281 | a release takes back what was booked from the day and the period and never goes below zero |
| Quota.RoomIsReservableExactly | packages/core/src/quota.ts:297-299 | after a refusal by the day, a smaller count is reserved if and only if it is within the room left |
| Quota.FitIsLongest | apps/api/src/app.ts:4028-4036 | the items sent are the longest prefix whose recipients fit the room |
| Quota.CountFit | apps/api/src/app.ts:4030-4036 | the prefix loop computes that prefix and its sum |
| Quota.HeadAgreesExactly | apps/api/src/app.ts:4025-4048 | for a given room parking the tail equals reserving item by item if and only if every item past the head exceeds the room left |
| Quota.HeadAgreesForEveryRoom | apps/api/src/app.ts:4025-4048 | they agree for every room if and only if no item is smaller than one before it |
| Quota.GroupIsExact | apps/api/src/app.ts:3991-3994 | a day's group holds exactly the items of that day in request order |
| Quota.DaysAreExact | apps/api/src/app.ts:3991-3994 | the days are those of the items, each once, in order, so the groups partition the batch |
| Quota.UndisturbedPlacement | apps/api/src/app.ts:4003-4049 | with no other transaction in between a refused group goes out up to its longest fitting prefix and never whole |
| Quota.TeamUsage.PlaceGroup | apps/api/src/app.ts:3995-4073 | what one group books and parks as a function of what its two reservations answered, and when the batch is refused |
| Quota.TeamUsage.PlaceBatch | apps/api/src/app.ts:3982-4074 | each day sends exactly the prefix its two reservations' answers call for (all, the longest that fits, or none) with one booking a day in day order equal to the recipients sent, with other transactions in between; a refusal names the first item of a refused day and books nothing |
| LockOrder.CanDeadlockExactly | apps/api/src/app.ts:3986-3994 | a batch over sorted days can deadlock with an orderly one if and only if its team is not on a monthly plan and a group is counted at or past the day of a later group |
| LockOrder.PlanIsInOrderExactly | packages/core/src/usage-hourly.ts:35-60 | a batch asks for day and hourly rows in one global order if and only if no group is counted at or past the day of a later group |
| LockOrder.BatchesNeverCycle | apps/api/src/app.ts:3986-3994 | any number of batches over sorted days, with no group counted at or past the day of a later group, never form a wait cycle |
| LockOrder.OrderedLocksNeverCycle | apps/api/src/app.ts:3986-3994 | transactions that ask for rows in one order and keep them to commit never form a wait cycle |
| LockOrder.MidnightHourCanCycle | packages/core/src/usage-hourly.ts:35-60 | a batch over today and tomorrow whose first group is counted just past midnight can deadlock with a batch of tomorrow |
| Window.FixedWindowCounter.Count | apps/api/src/app.ts:635-650 | with a clock that never runs back the swept counter returns the number of hits of the key in the same minute over the full history, and the seconds until that minute ends, rounded up; the entries are swept above 10000 and not before |
| Window.FixedWindowCounter.Sweep | apps/api/src/app.ts:639-641 | the sweep removes exactly the entries of other windows |
| Window.AtMostTwiceTheLimitInAMinute | apps/api/src/app.ts:3479-3494 | at most the limit passes per window and at most twice the limit in any 60 seconds, for every history |
| Window.TwiceTheLimitIsReached | apps/api/src/app.ts:3549-3555 | for every limit a history in which twice the limit passes within two milliseconds |
| Window.WaitingReachesANewWindow | apps/api/src/app.ts:644-648 | the wait is between 1 and 60 seconds and always reaches a new window |
| Probation.ChargedOnceExactly | apps/worker/src/mailbox-sender.ts:104-150 | any nesting of wrappers charges at most once if and only if no clone stands between two of them |
| Probation.Sender.Send | apps/worker/src/mailbox-sender.ts:109-148 | a send through any stack restores the marks and moves the books only by steps of the ledger: it adds at most the charges its layers call for, each of its distinct recipients, keeps all of them for accepted and unknown outcomes and none for deferred and rejected ones unless a ledger statement itself failed, and touches no other charge |
| Probation.Sender.Charge | apps/worker/src/mailbox-sender.ts:127-147 | the charging layer: reserve, send on, refund only a proven non-acceptance |
| Probation.LedgerIsWhatMayHaveBeenSent | apps/worker/src/mailbox-sender.ts:127-147 | over every interleaving with other traffic the day ledger is that traffic plus the recipients of pending, accepted and unknown sends, and no refund is floored away |
| Probation.EndsExactly | apps/worker/src/mailbox-sender.ts:133-147 | a charge ends once and is refunded if and only if its send was deferred or rejected and the statement took effect; a failed refund leaves the send unknown |
| Probation.BooksExactly | apps/worker/src/mailbox-sender.ts:127-147 | a charge books its count on its own day and no other |
| Probation.LowersExactly | apps/worker/src/mailbox-sender.ts:161-168 | addresses are compared with A to Z lowered and every other character as it is |
| Bcc.WithEnvelopeBcc | apps/smtp/src/mailbox-submission.ts:98-116 | the line loop computes the rewrite, with the new field folded to Latin-1 |
| Bcc.FoldedIsSameExactly | apps/smtp/src/mailbox-submission.ts:114-115 | an address is written as it is if and only if all its characters are Latin-1 |
| Bcc.FieldFitsExactly | apps/smtp/src/mailbox-submission.ts:114-115 | the new field is one line of its own if and only if no address is written with a line feed and the last does not end in a CR in front of an LF |
| Bcc.FieldNamesTheAddressesExactly | apps/smtp/src/mailbox-submission.ts:114-115 | cut at its commas the new field gives back the addresses if and only if there are any, all are Latin-1 and none holds a comma and a blank |
| Bcc.FoldedAddressBreaksTheField | apps/smtp/src/mailbox-submission.ts:114-115 | an address with a character whose low byte is a line feed breaks the new field in two, and no message it is added to reads back |
| Bcc.OtherFieldsAndBodyStay | apps/smtp/src/mailbox-submission.ts:98-116 | read back, the message has every other header field with its folds in order, then the one new Bcc field, and the same body, if and only if no kept line ends in a stray CR with a bare LF behind it and the new field fits |
| Bcc.KeepIsTheOtherFields | apps/smtp/src/mailbox-submission.ts:103-112 | dropping lines under a flag keeps exactly the lines of the fields that are not Bcc |
| Bcc.BccIsExact | apps/smtp/src/mailbox-submission.ts:110 | a line names the field if and only if it is the three letters in any case, white space and a colon |
| Bcc.FoldsUnitsExactly | apps/smtp/src/mailbox-submission.ts:115 | each UTF-16 unit is written as its low byte, one for a basic character and two for the others |
| Bcc.ReadsBackExactly | apps/smtp/src/mailbox-submission.ts:99-115 | for every list of addresses the rewrite reads back as the lines it wrote in front of the unchanged rest if and only if no kept line ends in a stray CR with a bare LF behind it and the new field fits |
| BccTwice.IdempotentExactly | apps/smtp/src/mailbox-submission.ts:98-116 | for every text and every list of addresses, rewriting twice is rewriting once if and only if no Bcc line is added, or the added one is dropped whole by the second rewrite and leaves one kind of break in the head |
| BccTwice.SettledExactly | apps/smtp/src/mailbox-submission.ts:103-112 | the added field is dropped whole if and only if no blank line starts in it and each of its lines past the first is a fold or a Bcc line |
| BccTwice.FittingFieldSettles | apps/smtp/src/mailbox-submission.ts:103-112 | a field that is one line of its own is dropped whole, so only a stray CR behind several kept lines makes the message grow |
| BccTwice.FoldedAddressIsRewrittenAgain | apps/smtp/src/mailbox-submission.ts:114-115 | an address that adds a line of its own changes every message a second time |
| HeaderLines.ReadOfGlue | apps/smtp/src/mailbox-submission.ts:100-105 | splitting off the header and its lines undoes joining them |
| HeaderLines.SplitIsFirst | apps/smtp/src/mailbox-submission.ts:100-102 | the header ends at the first place where a blank line begins, if there is one |
| HeaderLines.BlankLineIsExact | apps/smtp/src/mailbox-submission.ts:100 | a blank line is two breaks of either kind |
| Submission.DraftNamesTheEnvelope | apps/smtp/src/mailbox-submission.ts:124-141 | a message is drafted exactly when it is from the own address and To and Cc lie inside the envelope; then To, Cc and Bcc together are the envelope and Bcc is disjoint from the visible ones, each once in the order first named; otherwise 451 for a paused server, 553 for a foreign sender, 452 for a stray recipient of a full envelope and 554 for any other |
| Submission.DraftKeepsTheMessage | apps/smtp/src/mailbox-submission.ts:141-147 | the draft's only Bcc field is the new one and all else is the client's, if and only if no kept line ends in a stray CR with a bare LF behind it and the new field fits |
| Submission.SubmissionServer.OnConnect | apps/smtp/src/mailbox-submission.ts:191-200 | a connection is admitted exactly while its address has fewer than the limit open, and the counts stay equal to the admitted sessions |
| Submission.SubmissionServer.OnClose | apps/smtp/src/mailbox-submission.ts:201-206 | closing gives back what an admitted session took, once, and nothing for a refused one |
| Submission.SubmissionServer.Recent | apps/smtp/src/mailbox-submission.ts:168-174 | the pruned failure list counts the failures of the key in the last fifteen minutes over the full history |
| Outbox.NothingIsPostedAfterWithdrawal | packages/billing/src/google-advertising.ts:347-381 | once a withdrawal has committed no delivery is posted under that consent, whatever commits or rolls back |
| Outbox.RowsOnlyMoveForward | packages/billing/src/google-advertising.ts:327-397 | over every interleaving sent, dead and cancelled rows never change, attempts only rise and never past five, and retries are put off strictly later |
| Outbox.AttemptsAreCommittedPosts | packages/billing/src/google-advertising.ts:381-394 | a row's attempts are exactly its committed deliveries |
| Outbox.WithdrawalCancels | packages/billing/src/google-advertising.ts:204-215 | a withdrawal cancels every waiting row of the consent and erases its contexts |
| Outbox.DelayNeverCaps | packages/billing/src/google-advertising.ts:389-393 | below five attempts the doubling delay never reaches its one-hour cap |
| Outbox.Dispatcher.DispatchGoogleConversions | packages/billing/src/google-advertising.ts:327-397 | a pass delivers the due rows one by one in order until a transaction fails, and its count is the number of rows that became sent |
| Outbox.DispatchesExactly | packages/billing/src/google-advertising.ts:327-397 | a waiting row is posted if and only if its buyer consents, its time is not over and it has attempts left; otherwise it is cancelled or given up; what each answer leaves of the row, the doubling delay included |
| Outbox.RecordsExactly | packages/billing/src/google-advertising.ts:134-167 | a purchase is recorded if and only if it was paid within 72 hours, not before the second of its checkout, and its buyer still consents |
| Outbox.CapturesExactly | packages/billing/src/google-advertising.ts:72-106 | a checkout is remembered for seven days if and only if the consent stands and is the buyer's own or nobody's yet |
| Outbox.WithdrawsExactly | packages/billing/src/google-advertising.ts:204-215 | a withdrawal takes back the consent, cancels exactly the rows that wait under it and forgets exactly its checkouts |
| Proof.DecodeOfEncodeExactly | packages/billing/src/advertising-consent.ts:30-66 | decoding undoes encoding if and only if the expiry has ten digits and lies in the accepted window |
| Proof.AcceptedIsCanonicalExactly | packages/billing/src/advertising-consent.ts:41-66 | an accepted string is what encoding prints for its result if and only if the expiry is at least 10^9, which always holds from then on |
| Proof.AcceptedIsSigned | packages/billing/src/advertising-consent.ts:46-65 | whatever is accepted carries the signature of its own three fields |
| Proof.AcceptsExactly | packages/billing/src/advertising-consent.ts:46-66 | a string is accepted as a proof if and only if there is a secret, it has at most 200 characters and is two UUIDs, ten digits and their signature, with the digits ahead by no more than 90 days and a minute |
| Proof.EncodesExactly | packages/billing/src/advertising-consent.ts:30-39 | a proof is signed if and only if there is a secret, both ids are UUIDs and the expiry is a safe integer |
| Proof.PrintsExactly | packages/billing/src/advertising-consent.ts:37 | numbers print as digits without a leading zero that read back, and with a minus sign below zero |
| Proof.UuidIsExact | packages/billing/src/advertising-consent.ts:13 | the pattern admits exactly version 4 UUIDs in lower case |
| Proof.LeadingZeroIsAccepted | packages/billing/src/advertising-consent.ts:51-56 | an early string with a leading zero that is accepted and never printed |
| Proof.SplitOfJoin | packages/billing/src/advertising-consent.ts:37-47 | joining dot-free fields and splitting at dots are inverse |

## Left out

- Overage.BillingIsConserved: leaves out runs with an upgrade over a recorded pin, where the books do not stay exact (`Overage.BooksStayExactExactly`); bounds the bill by the highest use rather than the current one, because a release lowers the current use after it was billed; the gap is shown by `Overage.ReleaseLeavesBillAboveUse` and closed by `Overage.WithoutReleasesUseOnlyGrows`, with the exact condition in `Overage.BillStaysWithinUseExactly`.
- Overage.RecordPinned: assumes the provider recognises an identifier for as long as its pin can be retried; the identifier is its two ends within one period.
- Management.ManagementDriver.Manage: claims no progress under concurrency, since an unarmed stage of another driver can park a prepared row as pending; only safety and the bound on stages.
- Management.OwnWritesAreArmedAndUnique: speaks of writes sent at the armed step only; a write at another step is the finding above, and `Management.WriteIsArmedExactly` says when it was armed.
- Projection.RunIsMonotone: assumes a subscription keeps one creation time, which is how the provider issues it.
- Leases.OneCallPerLease: plan admission, prices and catalog checks enter only as outcomes of the `blocked` and `compatible` checks.
- Erasure.TeamRows.Erase: that the sessions are those of the purchase protocol is a property of the provider's sessions, shown of that protocol by `LeasedRows.PassedOverRowsAreQuiet`; ids are well-formed by type, so the checks of their spelling are not modelled; completeness of the listing is claimed only for a faithful provider and for subscriptions whose product does not change meanwhile.
- Contacts.CollapseAgrees: no contact cap, and no association that fails for only one of several collapsed items; both differ from one-at-a-time upserts by design. The retry after a concurrent insert or deletion, activity records and update times are not modelled.
- Idempotency.OneCommitPerLife: all servers share one clock that never runs back.
- Keyset.WalkListsStableRowsOnce: the two queries of one page see the same table; a cursor row deleted between them would end the walk early.
- Quota.TeamUsage.PlaceBatch: one billing period per team; other transactions may change the counters arbitrarily between two reservations, so the counters themselves are claimed only through each reservation's own effect.
- Window.FixedWindowCounter.Count: the bucket kept in the database for each API key counts the same way and is not modelled a second time.
- Probation.Sender.Send: the outcome of a failed ledger statement is only bounded, since the statement may or may not have taken effect; lower-casing is ASCII.
- Bcc.ReadsBackExactly: messages with no blank line after the headers are outside the claim; parsing of address lists is not modelled, so addresses reach the rewrite already extracted.
- Submission.SubmissionServer.Recent: authentication itself is not part of this model.
- Outbox.NothingIsPostedAfterWithdrawal: deliveries whose transaction rolls back are posted without being counted, so posts (unlike attempts) have no bound; the sign-up outbox and the Meta payloads are not modelled.
- Proof.DecodeOfEncodeExactly: the keyed signature is an arbitrary function with 43 dot-free characters of output; forgery is not discussed.
- Plan changes with proration (`changeMailboxPlan`), price and disclosure rules, and trial rules: branch by branch, they would only add easy members.
- Azure and customer relay routing, MIME parsing, provider clients, HTTP routing and request schemas: they enter as outcomes or parameters.
