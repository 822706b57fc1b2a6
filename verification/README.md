# Release control plane: a verified model

The system promotes machine-learning model versions to production. One durable
record holds the queue of promotions (`pending`), the release in progress
(`active`), the serving that users get (`stable`), the traffic weight
(`route`), a lease, and four histories that keep only their last 100 entries.
The record is changed only by compare-and-swap: each writer reads it, runs a
closure on a copy and writes the copy back. The writers are the queue consumer,
the resolution processor, an operator, the release authorizer, a bootstrap
command, and any number of controllers that compete for the lease. A controller
takes a release through PREPARING, RAMP (10, 25, 50, 100 per cent), FINALIZING
and DRAINING, or through ROLLBACK and BLOCKED. It reads a snapshot, calls
outside effects, and then commits closures that captured values of the snapshot.

The project models this as follows.

- `ReleaseState`, `Authorization` and `Mutators` give the record, the
  authorization checks and every closure with its captured values. `Record` runs
  the same closures in place, field by field, and proves both forms equal.
- `Lifecycle` and `Machine` give the invariant of one record and of whole runs,
  next to the full history that the record forgets. `Conservation`,
  `AuthorizationChain`, `Observers` and `Outcomes` prove what that history says,
  and `Forgetting` what the bounded windows of it lose, at reachable records.
- `Decisions` and `Cluster` model the controllers as program counters with
  snapshots, interleaved with all other writers, arbitrary clocks, crashes and
  writes that commit without the caller knowing. Lease fencing is proved there:
  every step of the cluster is a step of the atomic machine whose captured
  values are current. `Runs` states the results for whole runs; `Deadlines`
  gives the time bounds for runs with one monotone clock.
- `Store` is the retry loop over the compare-and-swap backend; `Consumer` and
  `Processor` are the queue consumer and the resolution processor above it.
  `Guarded` is the same loop with the controller's lease check in every turn, and
  proves that a call of it is one step of `Cluster`. `Progress` gives, from every
  reachable state, a schedule of controller ticks that completes the release, and
  one that rolls it back; the second, and the first while there is time, also for
  one clock that never goes back.
- `Splitting` and `Routing` are the router: exact splitting, and failing closed.
- `Legacy`, `LegacyRecord` and `LegacyCluster` are the older controller, with
  its own rollback discipline.
- `Sender` is the bounded traffic loop of the end-to-end runner.
- `Text`, `Requirements` and `BuildContract` are requirement normalisation and
  the build request; `ScanPolicy` is the vulnerability policy; `ProcessTree` the
  selection of owned processes.

Lemmas named `...Exactly` say when an operation gives each of its answers, in both
directions and in terms of its inputs alone.

Assumptions: owner names are unique; a write whose outcome was an error is not
delivered later; the digest is injective, so it is modelled by the value that it
digests (`Of`), with `Raw` for any other text. A stable pair and its runtime
fingerprint are always written together and form one `Serving` here. Real
numbers stand for clock readings; a missing, NaN or infinite metric is
`Undefined`. Clocks are arbitrary except in `Deadlines`, `Routing`, `Sender` and
the schedules of `Progress` that say so, and except that in `Processor` the own
clock of one tick does not go back between its choice of an item and the stamp on
the result (`Processor.MadeByTick`); different processors and operators may still
disagree about the time there.

Four findings about the code:

- The last 100 identities do not cover all accepted versions. What is accepted
  is unaffected, but a conflicting identity of a forgotten version is answered as
  stale, and its message is then deleted instead of being kept for inspection.
  `Conservation.TruncationIsHarmless` and `Forgetting.ForgottenConflictIsDeleted`
  give the exact condition, `Forgetting.ConflictIsDeletedInARun` a run.
- An ended release whose end row has left the audit window is reported as merely
  authorized by the release workflow: exactly when that row is not among the last
  100 of the full log (`Outcomes.TerminalIsHonest`). Any 100 further logged
  closures do it (`Forgetting.HundredRowsForgetTheEnd`), and
  `Forgetting.EndIsForgottenInARun` is a run in which it happens.
- The processor recognises the item it read by comparing its content. After an
  operator recovery at certain clock readings ticks can bring the same content
  back, and then a second processor transitions it again. `Processor.Restores`
  says at which readings and `Processor.RestoresExactly` that it can happen at
  exactly those: for a retry that is due at T, when the reading plus the backoffs
  of its failures is at most T; for a build request, when the reading plus 900
  seconds is, or 930 if it carries an error; for a recovered item, when the
  reading is T. The clock of the operator has to be behind, except in the last
  case. If even the clock of one tick may go back, a build request can be repeated
  unchanged without any recovery (`Processor.ClockBackTransitionsAgain`).
- The legacy stable image is not always nondecreasing in (version, time): a
  rebuild of an unordered stable image with a time before the epoch passes
  ingestion, is promoted and replaces it. `Legacy.NegativeTimeRegresses` leads to
  that record for every such candidate, and `LegacyCluster.RegressesExactly` is
  the exact condition in whole runs.

## Model

| member | source | states |
|---|---|---|
| Runs.EveryCommitIsFresh | control_plane/controller_v2.py:40-44 | In every interleaving, when a guarded write of a controller is handed to the store, the leased part of the record is its snapshot plus its own writes, the closure's captured values are current, and a claim finds no active release |
| Runs.EveryStateIsSound | control_plane/state_v2.py:142-172 | Every reachable record has weight, phase and stable lane in agreement, passes the structural checks, and an active release always has a binding |
| Runs.RevisionIdentifiesWeight | control_plane/controller_v2.py:15-17 | Over a run the route revision never decreases, and equal revisions carry the same weight |
| Runs.AckMeansTheDecision | control_plane/controller_v2.py:61-64 | Whatever route the router has cached, if its revision is the durable one then it is the durable decision itself |
| Runs.LaneRewritesAreSafe | control_plane/controller_v2.py:46-48 | The stable lane is rewritten to the candidate only in FINALIZING at weight 100 after a ready router reported exactly that route, or to the previous serving in a recovery at weight 0; the canary lane only before it gets traffic |
| Runs.StableNeverRegresses | control_plane/controller_v2.py:181-211 | From one idle record of a run to any later idle one the stable version does not decrease |
| Runs.EveryVersionHasOneFate | control_plane/state_v2.py:113-130 | In every reachable state each accepted version is exactly one of pending, active, promoted, rolled back or superseded; nothing is accepted or claimed twice and no authorization starts two releases |
| Runs.HistoriesAreConsistent | control_plane/controller_v2.py:194-211 | The bounded lists are the last 100 entries of the full histories, promoted and failed releases are the claims that ended so, and each release starts from what the one before left behind, so a rollback restores exactly the previous serving |
| Runs.EveryReleaseWasAuthorized | control_plane/authorization_v2.py:96-124 | Every release was started by an authorization that was really written, authorizations form a chain, no evidence is authorized twice, and neighbouring authorizations of one version come from different release runs and rest on the same basis |
| Runs.ObserversAreRight | scripts/e2e_v2/runner.py:65-120 | The two audit observers never disagree: a PASS of the automatic one (always through 10, 25, 50, 100) is PROMOTED for the other, a FAIL is ROLLED_BACK, and no verdict means ROLLOUT_STARTED |
| Runs.RunKeepsAlways | control_plane/controller_v2.py:66-92 | The whole invariant, including authorizations, audit log and outcomes, holds in every state of every run |
| Cluster.CommitsAreNeverStale | control_plane/controller_v2.py:35-44 | Lease fencing for one write: if this owner still holds the lease, nobody else has changed the leased part of the record since its snapshot |
| Cluster.RefinesMachine | control_plane/state_v2.py:174-186 | Every step of the interleaved system is a step of the atomic machine by a closure that fits the record, or leaves it alone |
| Cluster.DoKeepsSysInv | control_plane/controller_v2.py:66-126 | Fencing, the program counters and the acknowledgement facts are kept by every step of every actor |
| Cluster.AuthorizationNeverLost | control_plane/controller_v2.py:94-102 | The authorization of a running release never fails validation, so the missing_release_authorization rollback is unreachable |
| Cluster.OutsidersKeepView | scripts/bootstrap_v2.py:79-99 | Once a lease exists, no writer other than a controller can touch active, route, stable, processed or failed |
| Cluster.EnteringFinalizing | control_plane/controller_v2.py:167-174 | FINALIZING is only entered by a promotion at weight 100, at the same route |
| Cluster.RecoveryWrites | control_plane/controller_v2.py:199-211 | A recovering tick leaves the recovery phases only by ending the release, and forcing weight 0 there changes nothing leased |
| Cluster.UnhealthyRampIsRolledBack | control_plane/controller_v2.py:141-161 | A tick that finds RAMP with an unready lane, or with a broken limit and enough traffic, cannot end unwritten, and its committed write leaves ROLLBACK at weight 0, whatever the deadline is |
| Cluster.ErrorsAreRolledBack | control_plane/controller_v2.py:103-121 | Any exception of a tick whose release is not recovering reaches the handler; it ends unwritten exactly for an unreachable stable lane in FINALIZING before the deadline, and its committed write leaves ROLLBACK at weight 0 |
| Cluster.ErrorsReachHandler | control_plane/controller_v2.py:103-121 | An exception reaches the handler from everywhere in the tick of a release except from the handler itself, and ends the tick otherwise |
| Cluster.WritesExactly | control_plane/controller_v2.py:40-44 | What a guarded write leaves of record and tick, for an acknowledged, unseen, lost or conflicting one |
| Cluster.TakesExactly | control_plane/controller_v2.py:26-33 | The lease is taken or renewed exactly when nobody else holds it past the reading |
| Lifecycle.FittingKeepsRecordInv | control_plane/controller_v2.py:128-211 | Every closure whose captured values fit keeps the queue, phase and release invariants |
| Lifecycle.FittingNeverRaises | control_plane/controller_v2.py:128-211 | A fitting closure of a controller only raises when it updates a release that is already over |
| Lifecycle.ClaimCorrect | control_plane/controller_v2.py:72-91 | A claimed candidate is the newest version ever accepted and newer than stable, the queue becomes empty, and its authorization is unexpired and is about exactly this serving, event and stable baseline, so its binding succeeds |
| Lifecycle.OneEligible | control_plane/controller_v2.py:77-81 | At most one queued item is ever eligible, and it has the highest accepted version |
| Lifecycle.ClaimableMeans | control_plane/authorization_v2.py:84-93 | What the claim test guarantees about an item of the queue, through the snapshot it repeats |
| Lifecycle.ClaimFrame | control_plane/controller_v2.py:84-91 | Everything a claim leaves alone, and the one audit row it writes |
| Lifecycle.ClaimExactly | control_plane/controller_v2.py:72-91 | A claim starts a release exactly when the idle record queues an approved, unexpired item of the highest version whose approval is about this pair, fingerprint, event and stable baseline; it starts that item and writes exactly this record, and nothing otherwise |
| Lifecycle.ResolveExactly | control_plane/processor_v2.py:69-76 | A result changes exactly the item that was read, and only while it is queued unchanged; what becomes of it for an image, for none and for a failure |
| Lifecycle.RecoverExactly | control_plane/operator_v2.py:13-27 | A version is recovered exactly when it is queued and blocked, and its attempts then start again at that reading |
| Lifecycle.QueueKeepsView | control_plane/processor_v2.py:69-77 | Ingestion, resolution, recovery and authorization never change the leased part of the record or the lease |
| Lifecycle.QueueItemsValid | control_plane/state_v2.py:160-168 | The item checks of the store hold for every queued item after every queue closure |
| Lifecycle.RecordInvValidates | control_plane/state_v2.py:142-172 | The record invariant together with the history bounds implies that validation accepts the record |
| Machine.StepKeepsWindows | control_plane/state_v2.py:109-130 | The audit, identity, processed and failed lists stay the last-100 suffixes of the full histories |
| Machine.StepKeepsRoutes | control_plane/controller_v2.py:15-17 | A weight change takes a fresh revision; routes that were ever durable are told apart by revision |
| Machine.StepCases | control_plane/controller_v2.py:66-211 | Every step keeps the release, starts one from idle, or ends the active one with the stable serving and history entry of that end |
| Machine.StepKeepsReleases | control_plane/controller_v2.py:72-91 | Claims have strictly increasing versions, start from the previous result, and agree with the active release or the idle stable |
| Machine.BaselineNeverDecreases | control_plane/controller_v2.py:181-211 | The version that the system can fall back to never decreases |
| Machine.HighestNeverDecreases | control_plane/state_v2.py:126-127 | The highest accepted version never decreases |
| Conservation.ExactlyOneFate | control_plane/controller_v2.py:82-85 | Five ways to be handled, and every accepted version is in exactly one of them, every other version in none |
| Conservation.AtMostOnce | control_plane/state_v2.py:117-128 | Versions are accepted and claimed at most once and authorizations start at most one release, although only 100 identities are kept |
| Conservation.TruncationIsHarmless | control_plane/state_v2.py:117-128 | Forgetting old identities never changes what is accepted; the reported reason differs exactly for versions that fell out of the window, and then it is stale |
| Conservation.IngestExactly | control_plane/state_v2.py:113-130 | A version is accepted exactly when it is greater than every accepted one and the queue has room; otherwise the record is Busy, or only notes a duplicate, a conflict or a stale version as the retained identities tell them apart |
| Conservation.BootstrapExactly | scripts/bootstrap_v2.py:79-99 | A bootstrap succeeds exactly on a record without release, queue, lease or traffic, for a verified serving that is stable already or not older than what was accepted; after a first one every newer version is accepted |
| Conservation.StepKeepsInv | control_plane/state_v2.py:174-186 | The combined invariant of record and history is kept by every fitting closure |
| AuthorizationChain.StepKeepsChain | control_plane/authorization_v2.py:102-124 | Authorizations of one version have disjoint increasing windows, each names its predecessor, comes from another run and rests on the same basis; queued items carry the latest one, and every claim used one that was written |
| AuthorizationChain.ClaimsUseLatest | control_plane/controller_v2.py:86-91 | A claim uses the latest authorization ever written for its version |
| AuthorizationChain.NeverAuthorizedTwice | control_plane/authorization_v2.py:108-118 | No evidence is authorized twice, and windows of one version do not overlap, whatever clocks the writers use |
| AuthorizationChain.RetryChangesNothing | control_plane/authorization_v2.py:107-110 | Repeating a successful authorize call never extends or duplicates it |
| AuthorizationChain.AuthorizeMeans | control_plane/authorization_v2.py:103-123 | What a written authorization says about its item: the highest version, well-formed evidence at most a day old, and the predecessor it supersedes, which had expired before the evidence was made, by another run and on the same basis |
| AuthorizationChain.AuthorizeExactly | control_plane/authorization_v2.py:102-124 | When the call succeeds, in both directions: first evidence that supersedes nothing; the same evidence while its approval can be claimed; other evidence exactly when the approval has expired, is named, comes from another run, precedes the evidence and has the same basis; always on the reviewed snapshot |
| AuthorizationChain.AuthorizedIsClaimable | control_plane/authorization_v2.py:84-93 | Afterwards the item carries that approval and can be claimed exactly in its window, and a repetition changes nothing |
| AuthorizationChain.SnapshotExactly | control_plane/authorization_v2.py:42-52 | The snapshot succeeds with a basis exactly when the record is idle on that baseline and the item is that candidate, resolved, canonical and the newest |
| AuthorizationChain.BindingExactly | control_plane/automatic_traffic_v2.py:14-22 | Exactly when a running release is bound to its authorization: well-formed evidence for the same serving, event and previous stable |
| AuthorizationChain.ValidatedExactly | control_plane/state_v2.py:142-170 | Which records the store accepts, in both directions: the weights, the bounds, and for every queued item its pair and an approval of exactly that item for approved ones and no others |
| Decisions.Decide | control_plane/controller_v2.py:66-126 | Every write of a tick is a controller closure stamped with the closure's own clock reading, and a tick only stops while the deadline has not passed |
| Decisions.DecideRamp | control_plane/controller_v2.py:140-174 | A promotion carries the snapshot's weight and everything that has to be earned; an expired stage that has its router answer is always rolled back |
| Decisions.DecideFinalizing | control_plane/controller_v2.py:175-187 | Stable is committed to the active serving only when it is ready, and an expired deadline always rolls back |
| Decisions.DecideDraining | control_plane/controller_v2.py:188-198 | A release completes only with a ready stable lane and a matching acknowledgement; an expired drain always writes |
| Decisions.DecideRecovery | control_plane/controller_v2.py:199-211 | A recovery forces weight 0, rewrites stable to the previous serving, restores only after an acknowledgement of the record it re-read, and otherwise blocks once expired |
| Decisions.DecideHandler | control_plane/controller_v2.py:103-126 | The exception handler rolls back, or blocks a recovery, and waits only before the deadline |
| Decisions.EmptyAssessmentIsHealthy | control_plane/controller.py:72-82 | The assessment is empty exactly when every metric is finite and within its limit |
| Decisions.PromotionIsEarned | control_plane/controller_v2.py:140-174 | A promotion has seen both lanes ready, an acknowledgement of this route, the whole dwell time, enough traffic and an empty assessment |
| Decisions.ExpiredStageIsLeft | control_plane/controller_v2.py:128-211 | A stage whose deadline has passed is left or blocked, never prolonged |
| Decisions.RampExactly | control_plane/controller_v2.py:140-174 | A RAMP tick writes nothing exactly while both lanes are ready, the deadline is ahead and it waits for the router, for traffic, or, with a healthy sample, for the dwell time; when it asks, marks, promotes and rolls back, in terms of its inputs |
| Decisions.RampReasons | control_plane/controller_v2.py:140-163 | Which rollback reason a RAMP tick gives, for every case |
| Decisions.AssessmentNames | control_plane/controller.py:72-82 | The assessment names exactly the broken limits |
| Decisions.UnhealthyRollsBack | control_plane/controller_v2.py:141-161 | An unready lane, or a broken limit with traffic at the minimum, is rolled back at once, whatever the deadline is |
| Decisions.PreparingExactly | control_plane/controller_v2.py:131-139 | A PREPARING tick rewrites the canary lane first, then waits, arms or rolls back, each exactly when |
| Decisions.FinalizingExactly | control_plane/controller_v2.py:175-187 | A FINALIZING tick rewrites the stable lane first, then waits, commits or rolls back, each exactly when |
| Decisions.DrainingExactly | control_plane/controller_v2.py:188-198 | A DRAINING tick rolls back an unready stable lane at once, and asks, waits, completes or rolls back, each exactly when |
| Decisions.RecoveryExactly | control_plane/controller_v2.py:199-211 | A recovering tick zeroes, rewrites, looks, asks, restores, waits or blocks, each exactly when |
| Decisions.HandlerExactly | control_plane/controller_v2.py:103-126 | The handler waits exactly before the deadline of a recovery, or of FINALIZING with an unreachable lane; which reason it gives otherwise |
| Decisions.InvalidApprovalRollsBack | control_plane/controller_v2.py:94-102 | A release whose approval does not validate is rolled back from every phase that is not recovering |
| Deadlines.ReleaseEndsInTime | control_plane/controller_v2.py:123-211 | If some tick begun at most `gap` ago has always completed, a release is over or BLOCKED within 8 * (timeout + gap) of its claim, across restarts and takeovers |
| Deadlines.FinalizingTakesFourDwells | control_plane/controller_v2.py:162-174 | FINALIZING begins at least four dwell times after the candidate first got traffic, acknowledged and with an empty assessment |
| Deadlines.EnterInTime | control_plane/controller_v2.py:136-187 | Each of the eight deadlines of a release is set within the bound of its rank |
| Deadlines.CompletionIsFresh | control_plane/controller_v2.py:128-130 | A tick that completes leaves no stage that was overdue when the tick began |
| Deadlines.LeaseIsKeptForTenSeconds | control_plane/controller_v2.py:26-48 | With one clock: after a read, lane rewrite or write of a controller that checked the lease at some reading, no other owner gets the lease at a reading within the next ten seconds, so outside calls that end by then end under its lease |
| Observers.AutomaticObservation | scripts/e2e_v2/runner.py:65-120 | The two loops over the retained rows compute the observer's verdict |
| Observers.ObserverIsExact | scripts/e2e_v2/runner.py:65-120 | PASS exactly for the latest retained release that was promoted, through 10, 25, 50, 100; FAIL with the durable reason exactly for the one rolled back to its baseline; no verdict exactly while it runs unblocked; never PASS or FAIL once the start is lost |
| Observers.IdleExactly | scripts/e2e_v2/runner.py:103-120 | On any idle record, reachable or not: PASS and FAIL exactly with weight 0, the right stable pair and one uncontradicted end row of this release, after 10, 25, 50, 100 for PASS, with the one failure and the newest reason for FAIL |
| Observers.ActiveExactly | scripts/e2e_v2/runner.py:90-102 | On any record with a release: in progress exactly without an end row, not blocked and with the stable pair of its phase, and never PASS or FAIL |
| Observers.ObservedRows | scripts/e2e_v2/runner.py:65-81 | The verdict is about the rows after the newest start, which has to be that of this release |
| Observers.StepKeepsLog | control_plane/controller_v2.py:50-59 | The rows after the latest start tell the truth about the latest release in every state of every run |
| Observers.WindowShowsRelease | control_plane/state_v2.py:109-110 | The bounded log shows the latest start exactly while it is among the last 100 rows, with everything after it |
| Observers.LatestFailureIsUnique | scripts/e2e_v2/runner.py:111-113 | The latest rolled back release has exactly one retained failure record |
| Outcomes.ScanBackwards | scripts/release_v2.py:300-308 | The reversed scan computes the newest row that decides this authorization |
| Outcomes.TerminalIsHonest | scripts/release_v2.py:300-308 | PROMOTED and ROLLED_BACK are only reported for releases that ended so, the running answers exactly while it runs, and an ended release is reported as AUTHORIZED exactly when its end row is not among the last 100 rows of the full log |
| Outcomes.StepKeepsOutcomes | control_plane/controller_v2.py:188-211 | In the full log the newest deciding row of every authorization tells how its release stands |
| Forgetting.HundredRowsForgetTheEnd | control_plane/state_v2.py:109-110 | After any 100 further logged closures an ended release is reported as merely AUTHORIZED |
| Forgetting.EndIsForgottenInARun | scripts/release_v2.py:300-308 | A run of the system in which a promoted release is reported as merely AUTHORIZED |
| Forgetting.ForgottenConflictIsDeleted | control_plane/consumer_v2.py:8-20 | An undisturbed conflicting message is deleted, as stale, exactly when the record has forgotten its version, and kept otherwise |
| Forgetting.ConflictIsDeletedInARun | control_plane/state_v2.py:117-121 | A run of 101 promoted releases after which a conflicting message of the first of them is deleted as stale |
| Forgetting.PromoteOne | control_plane/controller_v2.py:66-198 | From every idle state with an empty queue some schedule accepts, resolves, authorizes, claims and promotes the next version |
| Record.Draft.FindIdentity | control_plane/state_v2.py:117 | The first retained identity of a version |
| Record.Draft.Run | control_plane/state_v2.py:178-180 | Any closure changes the copied record exactly as the specification of that closure says, or raises its error |
| Store.Update | control_plane/state_v2.py:174-186 | The retry loop over the backend computes the recursive specification, whatever other writers do between read and write |
| Store.UpdateIsAtomic | control_plane/state_v2.py:174-186 | The closure is committed at most once, in one step on the record others left; an answer is the truth about it, and only a lost request or reply leaves it open |
| Store.UpdateExactly | control_plane/state_v2.py:174-186 | The loop passes exactly the turns that only met a conflict; its answer and the final record are those of the first other turn, or of the last one: rejected, raised, committed, lost, or out of retries |
| Store.NeverRejected | control_plane/state_v2.py:177-180 | Validation never rejects an update whose closure fits wherever it is tried |
| Store.Backend.Write | control_plane/state_v2.py:181-185 | A write succeeds exactly at the revision that was read; its reply may be lost |
| Store.Backend.Interfere | control_plane/state_v2.py:174-186 | Other writers' committed closures each move the revision |
| Guarded.Change | control_plane/controller_v2.py:35-44 | A controller's update computes its specification: in every turn the lease is checked on the record just read, with a fresh clock reading, before the closure runs |
| Guarded.ChangeExactly | control_plane/controller_v2.py:35-44 | The same for a guarded update: every turn that was passed had more than ten seconds of its owner's lease left and met a conflict, and the last one reached gives the answer |
| Guarded.CommitNeedsLease | control_plane/controller_v2.py:35-44 | A guarded update commits only on a record with a lease of its owner for more than ten seconds after that turn's reading, and is Busy exactly when the valid record it read last has none |
| Guarded.ChangeIsOneStep | control_plane/controller_v2.py:40-44 | Whatever other actors do between its turns' reads and writes, and whatever is lost, a whole guarded update is one possible step of the interleaved system between their steps, with the readings of one of its turns: the same record and history, and the same continuation of the tick; validation never rejects it, and without the lease the tick just ends |
| Consumer.HandleMessage | control_plane/consumer_v2.py:8-20 | The message is deleted only after a durable decision other than identity_conflict |
| Consumer.DeletesExactly | control_plane/consumer_v2.py:8-20 | A message is deleted exactly when the update returned acceptance, a duplicate or a stale version and the deletion arrived |
| Consumer.QuietDelivery | control_plane/consumer_v2.py:8-20 | What an undisturbed delivery does to the record and to the message, for new, duplicate, conflicting and stale versions and for a full queue |
| Consumer.DeletedIsDurable | control_plane/consumer_v2.py:8-20 | A deleted message's version is at most the durable highest, and its identity is recorded unless it was stale |
| Consumer.EveryDeletedIsCovered | control_plane/consumer_v2.py:8-27 | Over any run with redelivery, crashes between commit and deletion and ambiguous writes, every deleted message is well formed and covered by the record |
| Consumer.RedeliveryAcceptsOnce | control_plane/state_v2.py:189-191 | However often messages are delivered, each version is accepted at most once |
| Processor.Tick | control_plane/processor_v2.py:40-80 | The first due item is read, looked up while others commit, and its result handed to the store for exactly that snapshot |
| Processor.TickExactly | control_plane/processor_v2.py:40-77 | What an undisturbed tick does: the first due item becomes ready with the image of the reviewed profile or else of the other one, a build request for the other one, a retry or blocked, with these attempts and this due time |
| Processor.FirstDueExactly | control_plane/processor_v2.py:41-46 | The item of a tick is the first that waits to be resolved and is due |
| Processor.BackoffExactly | control_plane/processor_v2.py:67 | Failures wait 30, 60, 120, 240, 480 and then 900 seconds |
| Processor.SnapshotTransitionsOnce | control_plane/processor_v2.py:69-77 | Of all processors that read the same item, only the first to commit changes anything, whatever fitting closures come in between, if every tick's own clock does not go back and no operator recovered the version at a reading that restores the item |
| Processor.RestoresExactly | control_plane/operator_v2.py:13-27 | The condition is exact: a recovery of the version at this reading can make a second processor transition the item again, through ordinary ticks with one digest and one attempt limit, if and only if the reading restores the item |
| Processor.RestoresMeans | control_plane/processor_v2.py:59-68 | Those readings in seconds, from the backoffs, the 900 seconds of a lookup and the 30 seconds of a first failure; from the due time on only a recovered item is restored, at exactly that time |
| Processor.ClockBackTransitionsAgain | control_plane/processor_v2.py:59-76 | With arbitrary clocks and nothing in between, the second processor transitions the item again exactly when the first repeated a build request at a reading 900 seconds before the due time it had found passed |
| Processor.DueMovesOn | control_plane/processor_v2.py:59-68 | An item resolved by a tick is due at least 30 seconds later than it was, 900 after a lookup and its backoff after a failure |
| Processor.TickFits | control_plane/processor_v2.py:41-46 | A processor's closure is about a resolvable item, so it fits every record |
| Processor.AttemptsStayOk | control_plane/processor_v2.py:64-68 | Every closure of every writer keeps that resolution is blocked exactly when the failures in a row have reached the limit, and that a waiting item is fresh, just recovered, or as an attempt below the limit leaves it |
| Progress.CanPromote | control_plane/controller_v2.py:66-198 | From every reachable state of the interleaved system with a release that is not recovering, some schedule of controller ticks and router reads, with freely chosen clock readings, completes it, with the candidate as stable |
| Progress.CanPromoteInTime | control_plane/controller_v2.py:128-198 | With one clock that never goes back: from every reachable state whose current stage can still be passed before its deadline, some schedule completes the release |
| Progress.CanRollBack | control_plane/controller_v2.py:66-211 | From every reachable state with a release and from any time on, some schedule of controller ticks and router reads under one clock that never goes back leads to idle with exactly the serving the release started from |
| Progress.OneClockIsTimely | control_plane/controller_v2.py:123-211 | Such schedules meet the timing rules of the runs with deadlines |
| Splitting.PrefixIsExact | canary/router.py:20-21 | The first n requests send exactly floor(n * percent / 100) to the canary |
| Splitting.WindowIsFair | canary/router.py:20-21 | Every window of n requests is less than one request from its share, every window of 100 exact |
| Routing.Router.Set | control_plane/router.py:23-27 | Caching a record; the sequence restarts exactly when the revision changes |
| Routing.Router.Status | control_plane/router.py:28-36 | Readiness needs a fresh record and, during a release, a lease that outlives the reading |
| Routing.Router.Choose | control_plane/router.py:37-41 | No choice when not ready, otherwise the splitter with the weight of the check and the index at the choice, whatever other threads cache or take in between |
| Routing.IdleIsServed | control_plane/router.py:28-41 | A request that meets a fresh record without a release passes its check and is served by stable, whether there is a lease or not |
| Routing.ServedSplitIsExact | control_plane/router.py:23-41 | Since the cached revision last changed, the decided requests are split exactly and every window of them is fair, also when they overlap, as long as none was checked before that change |
| Routing.CanaryIsBacked | control_plane/router.py:28-41 | A canary choice is backed by a durable record in RAMP or FINALIZING read at most ten seconds plus the read delay before its check, with a lease that outlives the check |
| Routing.FailsClosed | control_plane/router.py:28-41 | No request checked more than ten seconds plus the read delay after the durable weight went to 0 is sent to the canary |
| Routing.ReadyReportsTheRoute | control_plane/router.py:28-36 | A ready router reports exactly the cached durable route; one that is not ready reports weight 0 and serves nobody |
| Legacy.FittingKeepsPhase | control_plane/controller.py:110-235 | Weight, phase and stable agree, with traffic at 100 while a rollback from FINALIZING still has to restore |
| Legacy.FittingExactly | control_plane/controller.py:110-235 | What every closure of the release does to a record that it fits: new stages start unmarked, phases get fresh deadlines, changes of weight fresh revisions, and an ended release is recorded once with its own image |
| Legacy.FittingKeepsTimes | control_plane/controller.py:125-204 | Without times before the epoch, every closure keeps stable nondecreasing in (version, time) |
| Legacy.ClaimedIsEligible | control_plane/controller.py:125-136 | A claim takes a greatest eligible candidate of the queue |
| Legacy.ClaimExactly | control_plane/controller.py:125-136 | A legacy claim takes a greatest image that follows stable, keeps exactly the others that do, and starts nothing if there is none |
| Legacy.IngestExactly | control_plane/state.py:59-73 | An image is queued exactly when its digest is new to the whole record, it is newer than stable and the queue has room |
| Legacy.RetryExactly | control_plane/state.py:109-131 | A retry queues the image of the latest failure exactly when no release runs, the digest is not queued, stable or processed, the image is newer than stable and the queue has room |
| Legacy.FittingKeepsQueue | control_plane/state.py:59-131 | Every closure keeps that nothing is queued twice, or while it is stable, processed or being released |
| Legacy.ClaimRegressesExactly | control_plane/controller.py:126-132 | A claim goes back in (version, time) exactly for a rebuild of an unordered stable dated before the epoch |
| Legacy.StableRegressesExactly | control_plane/controller.py:200-204 | Stable goes back exactly when such a rebuild is finalized |
| Legacy.NegativeTimeRegresses | control_plane/controller.py:126-204 | Every rebuild of an unordered stable dated before the epoch passes ingestion, is claimed, promoted and finalized by fitting closures, and stable has gone back to it |
| Legacy.NegativeTimeExample | control_plane/state.py:66-71 | One such candidate at the initial record |
| LegacyRecord.Draft.Claim | control_plane/controller.py:125-136 | The legacy claim in place: filter, first greatest, remove |
| LegacyRecord.Draft.Run | control_plane/controller.py:102-107 | Any legacy closure changes the copied record exactly as its specification says, or raises |
| LegacyCluster.WritesFit | control_plane/controller.py:102-107 | Fencing for the legacy controller: captured values are current at every guarded write |
| LegacyCluster.DoKeepsInv | control_plane/controller.py:120-241 | The legacy invariant is kept by every step of every interleaving |
| LegacyCluster.RampExactly | control_plane/controller.py:149-187 | A legacy RAMP tick promotes exactly what is earned, and when it waits, asks, marks and rolls back, in terms of its inputs |
| LegacyCluster.PromotionIsEarned | control_plane/controller.py:149-187 | A written promotion implies both lanes ready, an acknowledgement of the route, a marked stage whose dwell is over, the deadline ahead, enough traffic and every metric within its limit |
| LegacyCluster.UnhealthyRollsBack | control_plane/controller.py:150-175 | An unready lane, or a broken limit after the dwell with enough traffic, is rolled back |
| LegacyCluster.EveryFinalizedEarnedIt | control_plane/controller.py:149-204 | In every run an image that becomes stable was promoted before by four ticks, at 10, 25, 50 and 100 per cent, each of which saw all that, and each a whole dwell time after some tick had marked just this stage, later than the stage before was promoted |
| LegacyCluster.PreparingExactly | control_plane/controller.py:143-148 | A legacy PREPARING tick, each answer exactly when |
| LegacyCluster.FinalizingExactly | control_plane/controller.py:188-204 | A legacy FINALIZING tick, each answer exactly when |
| LegacyCluster.DrainingExactly | control_plane/controller.py:205-214 | A legacy DRAINING tick, each answer exactly when |
| LegacyCluster.RollbackExactly | control_plane/controller.py:215-235 | A legacy ROLLBACK tick, each answer exactly when |
| LegacyCluster.OtherwiseExactly | control_plane/controller.py:122-139 | A legacy tick that is idle, blocked or in its handler, each answer exactly when |
| LegacyCluster.ErrorsReachHandler | control_plane/controller.py:237-240 | What an exception and a write leave of a legacy tick; only errors of the first three phases reach the handler, and not from the handler itself |
| LegacyCluster.TakesExactly | control_plane/controller.py:92-97 | The legacy lease is taken or renewed exactly when nobody else holds it past the reading |
| LegacyCluster.LeaseIsKeptForTenSeconds | control_plane/controller.py:92-109 | With one clock no other owner gets the lease within ten seconds after a legacy read or lane rewrite checked it, nor at the reading of a guarded write |
| LegacyCluster.RunKeepsQueue | control_plane/controller.py:125-136 | In every run a digest is queued at most once and not while it is stable, processed or being released |
| LegacyCluster.EveryRewriteIsSafe | control_plane/controller.py:108-109 | In every run the stable lane is rewritten only at durable weight 100, and the canary is scaled to zero only when the router holds exactly the current durable decision of weight 0 |
| LegacyCluster.TrafficReturnsOnlyToReadyStable | control_plane/controller.py:188-226 | While the stable lane may be half rewritten, traffic leaves the canary only in a tick that rewrote it and found it ready |
| LegacyCluster.StableNeverRegresses | control_plane/controller.py:200-204 | Over runs without times before the epoch the legacy stable never goes back in (version, time) |
| LegacyCluster.RegressesExactly | control_plane/controller.py:200-204 | In any run, whatever the times, stable goes back exactly at the steps that finalize an early rebuild |
| Sender.Execute | scripts/e2e_v2/runner.py:262-348 | At every moment within the request budget and the concurrency limit, submissions at least 1/rps apart, every automatic submission directly after a read that permits it, every request accounted for exactly once on exits without an exception; the four counters count the collected answers; without an automatic release a bad answer makes it FAIL, a baseline run fails only then and passes only with its budget spent and every answer good; other verdicts only as some record that was read shows |
| Sender.Run.Collect | scripts/e2e_v2/runner.py:268-273 | Counting one answer and taking it out of flight keeps the accounts |
| Sender.Run.CollectDone | scripts/e2e_v2/runner.py:295-296 | Exactly the finished futures leave the list |
| Sender.Run.Submit | scripts/e2e_v2/runner.py:340 | A submission within all limits keeps the log in order |
| Sender.Run.AskPermission | scripts/e2e_v2/runner.py:323-338 | The read before an automatic submission, its answer and the whole new state |
| Sender.Run.Poll | scripts/e2e_v2/runner.py:297-313 | Polling keeps the accounts; exactly when it goes on, starts the turn again or stops, with which verdict, and when the next poll is due; a verdict is witnessed by the record read |
| Sender.Run.TrySend | scripts/e2e_v2/runner.py:318-340 | A submission is made exactly when traffic is wanted, due, and within budget and concurrency, and all checks pass; otherwise nothing is sent |
| Sender.AnswerExactly | scripts/e2e_v2/runner.py:322-338 | A read lets an automatic submission pass exactly when the exact observer reports progress and exactly this release is ramping from its baseline; when it starts the turn again and when it ends the run |
| Sender.Run.TakeTurn | scripts/e2e_v2/runner.py:293-341 | One turn of the loop; a run that is not automatic never goes on with its budget spent and nothing in flight, and baseline traffic needs an idle record with the tested version as stable |
| Sender.ObservedRampIsPermitted | scripts/e2e_v2/runner.py:53-62 | On reachable records the permission check never rejects a release that is observed in progress and ramping |
| Sender.AdmitsExactly | scripts/e2e_v2/runner.py:123-137 | Which versions a run that is not automatic turns away: one released before, one that another release is in the way of, or one that is over without being queued |
| Sender.HardLimits | scripts/e2e_v2/runner.py:26-42 | Whatever a valid configuration says, at every moment at most 2000 requests, 8 of them in flight, submissions at least 0.05 seconds apart, none in observation and none in a policy test without consent |
| Sender.TallyMeans | scripts/e2e_v2/runner.py:268-273 | How the four counters relate to each other |
| Sender.TallyCounts | scripts/e2e_v2/runner.py:268-273 | The error counter is the number of collected answers whose status is not 2xx or whose lane is unknown; the others are the numbers of collected answers, and of those from each lane |
| Requirements.NormalizeRequirements | control_plane/runtime_resolver.py:35-62 | The loop over lines computes the canonical list or the rejection |
| Requirements.PinsMean | control_plane/runtime_resolver.py:44-59 | The pins are exactly what the lines say, and exist exactly when every line is understood and no name has two versions |
| Requirements.PinExactly | control_plane/runtime_resolver.py:21-23 | Which texts are read as which pin, in both directions: a name of letters, digits and separators, two equality signs, a version that starts with a digit |
| Requirements.NormalizeExactly | control_plane/runtime_resolver.py:31-32 | The normal form of a name is its words in lower case with one dash for every run of separators |
| Requirements.SameNameExactly | control_plane/runtime_resolver.py:31-32 | Two names have the same normal form exactly when their words are the same up to letter case |
| Requirements.NormalizeIsIdempotent | control_plane/runtime_resolver.py:35-62 | Normalising the joined output gives the same output |
| Requirements.NormalizeIgnoresLayout | control_plane/runtime_resolver.py:39-62 | Order, repetition, blank lines and comments make no difference |
| Requirements.SpacingIsIgnored | control_plane/runtime_resolver.py:40-45 | A whitespace character anywhere in a line makes no difference to what it says |
| Requirements.SpellingIsIgnored | control_plane/runtime_resolver.py:31-32 | Letter case and the spelling of separators in a name make no difference to its normal form |
| Requirements.FileSpacingIsIgnored | control_plane/runtime_resolver.py:39-62 | A spacing character anywhere in a file makes no difference to its normalised list |
| Requirements.FileCommentIsIgnored | control_plane/runtime_resolver.py:39-42 | A comment up to the end of its line makes no difference to the normalised list of a file |
| Requirements.FileSpellingIsIgnored | control_plane/runtime_resolver.py:39-62 | Replacing a pinned name in a file by another spelling with the same normal form makes no difference to its normalised list |
| Requirements.NormalizedNameIsCanonical | control_plane/runtime_resolver.py:31-32 | Normalising a valid name gives a valid name of small letters, digits and dashes that normalises to itself |
| Requirements.CanonicalReadsBack | control_plane/runtime_resolver.py:61-62 | A canonical list, joined into a text, normalises to itself |
| BuildContract.ValidateRequest | control_plane/build_contract.py:12-26 | Validation of a request, as its specification says |
| BuildContract.RequestRoundTrip | control_plane/build_contract.py:6-26 | A request is accepted as (c, p) exactly when c is canonical, p is a reviewed profile and the request is the one built from them |
| BuildContract.ArtifactIsRequestable | control_plane/runtime_resolver.py:79-95 | The contract read from an artifact can always be requested, and comes back |
| BuildContract.FingerprintIdentifiesRequest | control_plane/runtime_resolver.py:137-150 | Accepted requests with the same fingerprint are the same request |
| BuildContract.ParseExactly | control_plane/runtime_resolver.py:65-71 | A text has a Python version exactly when one line start declares it and no other declares any |
| BuildContract.DeclaredExactly | control_plane/runtime_resolver.py:18-20 | What is a declaration: the keyword, whitespace, X.Y.Z in optional quotes, and only whitespace up to the end of a line |
| BuildContract.CanonicalVersionParses | control_plane/runtime_resolver.py:65-71 | A version X.Y.Z survives its embedding in the request's own check |
| ScanPolicy.EvaluateScan | control_plane/runtime_security.py:67-136 | The nested loops compute the verdict of the specification |
| ScanPolicy.ReadWaivers | control_plane/runtime_security.py:49-64 | The dictionary of waivers, or rejection of the whole document |
| ScanPolicy.PassesExactly | control_plane/runtime_security.py:95-126 | PASS exactly when the inputs are well formed and every finding is MEDIUM or LOW without a waiver, or an unfixed operating system HIGH or UNKNOWN with an exact unexpired waiver |
| ScanPolicy.VerdictPlaces | control_plane/runtime_security.py:104-134 | Each list and each remediation bucket holds exactly the findings that belong there, by severity, package class, direct requirement, fix and waiver |
| ScanPolicy.ClassifiedExactly | control_plane/runtime_security.py:96-122 | The disposition, the remedy, the key and the severity of a finding, in terms of the record it comes from |
| ScanPolicy.WaiverExactly | control_plane/runtime_security.py:53-63 | Which waivers are accepted: texts only, no wildcard in what is matched, and not expired |
| ScanPolicy.TextExactly | control_plane/runtime_security.py:36-37 | A text is not empty and is its own stripped form |
| ScanPolicy.StripExactly | control_plane/runtime_security.py:103 | Stripping cuts whitespace off both ends and nothing else |
| ScanPolicy.VerdictPartitions | control_plane/runtime_security.py:123-134 | Every vulnerability of the report is a finding, the three lists partition all findings and the remediation buckets partition the blocking ones |
| ScanPolicy.OrderDoesNotMatter | control_plane/runtime_security.py:123-134 | The whole verdict is independent of the order of results and of findings |
| ScanPolicy.RemovingNeverBlocks | control_plane/runtime_security.py:116-126 | Removing one finding never turns PASS into BLOCK |
| ProcessTree.VerifiedRoots | canary/demo.py:52-60 | The recorded processes that are still the same live processes |
| ProcessTree.OwnedTree | canary/demo.py:56-66 | The loop ends with the least set that contains the verified roots and is closed under children that are not older than their parent |
| ProcessTree.SelectedIsReachable | canary/demo.py:61-66 | Selected are exactly the processes that a chain of such children connects to a verified root |

## Left out

- HTTP servers and clients, Kubernetes, queue, metrics and repository calls: their answers, failures and timing are inputs.
- `Controller.tick` of both controllers is a program counter over values, not a method, because its steps have to interleave with other actors; the closures it commits are methods that change a record in place.
- The guard read and the outside call after it are not atomic in the code; a lane rewrite is one step here. `Deadlines.LeaseIsKeptForTenSeconds` covers calls that end within ten seconds of the guard under one clock; longer calls are not covered.
- Routing.ServedSplitIsExact: requests that are checked under one revision and decided under another are excluded; the code then mixes an old weight with a new index.
- The 500 kB bound on the encoded record: not modelled; every closure could also be rejected for it without a commit.
- Format checks of digests, images, storage locations, tickets, release sources and event fields are the flags `wellFormed` and `canonical` or are taken as met.
- Audit row times, operators, notes and sources, and the legacy audit list: nothing modelled reads them.
- The processor's reading of artifact files and of the catalogue is one answer of a tick; the names of raised errors are texts.
- `AutomaticTraffic.tick` and job rendering: creating a Kubernetes job once per authorization; only `binding` is modelled.
- Routing of a canary lab server (`canary/router.py` apart from `choose_track`), the evaluator and `reconciliation_v2.py`: simpler variants of what is here.
- Sender.Execute: the observation of a run that is not bound to an authorization is an input, and payload and backend checks are one answer each; the set of seen stages is kept but nothing is claimed about it.
- ScanPolicy.EvaluateScan: an expiry time that overflows when it is converted to UTC, such as 9999-12-31T23:59:59-01:00, makes the source raise OverflowError, which it does not catch; no such time is a value here. The error text, the image identity and the timestamp of the verdict are not modelled; the order of serialised findings is any strict total order.
- Requirements.NormalizeRequirements: lower-casing covers the letters that a pinned name may contain; package names of findings with other upper-case letters are not folded.
- Release preflight, human review checks, provenance and credential handling of the release workflow, and the demo's service start and stop commands.
