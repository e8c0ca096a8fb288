# Verified model of Jumpstarter's controller and exec server

Jumpstarter leases shared hardware, called exporters, to clients. This project models the
parts of it that are hardest to get right and proves what they promise, for all inputs and
over all runs. `dafny verify dfyconfig.toml` checks everything.

| files | what they model |
|---|---|
| `LeaseRuns`, `LeaseProtocol`, `LeaseReconcile`, `Approval`, `Ranking`, `LeaseTimes`, `LeaseModel` | the lease allocator: policies, ranking, time arithmetic, one reconciliation, the whole protocol with the exporter reconciler, release calls and lost writes, and what updates do to a granted lease |
| `LeaseLocks`, `LeaseLockGrain`, `ListenQueues`, `ListenSections`, `ListenGrain`, `ListenOverlap` | the controller service: reference-counted per-lease mutexes, the handover of router tokens from Dial to Listen, and the two composed statement by statement and operation by operation |
| `Autoscaler`, `AutoscalerRuns`, `AutoscalerSettles` | the ExporterSet reconciler: bounds, convergence and cooldown |
| `Selectors` | conversion of a parsed label selector to `matchLabels` and `matchExpressions` |
| `CivilDate` | Unix seconds to a UTC calendar date |
| `ExecServer` | registration, reaping and shutdown of child processes |
| `OidcNames` | OIDC username to an RFC 1123 label |

Code that updates fields or loops over slices is modelled by classes and methods with loops,
each proved against a specification; concurrent code is modelled as a state machine over its
atomic steps, and the theorems about it quantify over every run.

## What the proofs say about the code

Most promises hold as stated. These hold only under a condition; a lemma gives the exact condition
and, where that does not show the failure by itself, another a concrete failing case:

- A date is right exactly when its year fits an `i32` (`CivilFromUnixCorrect`, `YearWrapsAround`).
- A rule's maximum duration is compared once, when the lease is granted. At that moment it bounds
  the expiration exactly when cutting the requested begin and end to whole seconds, which is how
  they are stored, does not lengthen the window; the excess is below one second
  (`MaximumDurationRespected`, `MaximumDurationSlack`, `HalfSecondOver`).
- After the grant nothing compares it again, so a client's update call can lengthen a live lease
  past any maximum (`OverstayHappens`). A lease outlives the maximum only through an edit, and
  exactly the edits that store a later end, or a longer duration than the maximum plus the time
  the lease began late, let it (`OverstayNeedsEdit`, `EditOverstaysIff`, `UpdateIsAllowedIff`).
- A release call reads the lease and patches it by name. The exporter that asked holds the lease it
  marks if it is still the lease that was read (`ReleaseMarksHeldLease`); one deleted and created
  again in between is marked all the same (`RecreatedLeaseIsReleased`).
- The exporter comparator is the intended order exactly when the priorities it subtracts do not
  wrap around 64 bits (`CompareIsIntended`, `ExtremePrioritiesMisordered`).
- The guard against spot access looks only at the first entry, before readiness is considered, so
  a lease can be granted under a spot rule; `SpotGrant` says exactly when, and `SpotGrantHappens`
  shows it. The status message there says that spot access is not implemented.
- `a==b` means what `a=b` means but the conversion refuses it as unsupported (`DoubleEqualsIsRefused`).
- The lease mutex is shared by all holders when an acquire attempt is one step. At the grain of
  single atomic operations it is lost exactly when an attempt increments an entry that another
  attempt is still backing out of (`OverlapLosesMutex`, `FinerGrainLosesTheMutex`).
- At that grain a token goes only to the open and current queue in every run without such an overlap
  (`LostTokenNeedsOverlap`). From every state in which one is about to happen, some continuation
  has a dial accepted by a queue that was closed before (`OverlapCanLoseToken`,
  `AcceptedByAClosedQueue`). The comments on the retry and on the send
  (controller/internal/service/controller_service.go:124-126, 167-170) claim more.
- A running registered child is in the set that shutdown signals exactly when no child with its pid
  was unregistered since (`ChildKeptIff`, `RunningChildInSnapshot`), which can go wrong exactly when
  its pid was still registered for a child already waited for (`StaleRegistrationLosesChild`,
  `ReusedPidLosesChild`).
- The number of instances an ExporterSet creates is bounded by what is missing once drained and
  finished instances are gone, not by what is missing now (`CreationsBounded`, `DrainedIsReplaced`).
- Draining after a scale-down leaves `minReplicas` exactly when more than that many instances
  were enabled; a leased instance that was disabled earlier can break it (`DrainLeavesMinimum`,
  `DrainBelowMinimum`).
- A live lease's timer is zero, which sets no timer, exactly when its expiration equals the clock
  reading (`TimerIsSet`, `ZeroTimerHappens`).

## Model

| member | source | states |
|---|---|---|
| `LeaseProtocol.ExclusivityInEveryRun` | controller/internal/controller/lease_controller.go:340-403 | In every run of lease and exporter reconciliations, releases, edits and lost label writes, no two leases that have not ended reference the same exporter |
| `LeaseProtocol.LeaseRefIsExact` | controller/internal/controller/exporter_controller.go:148-174 | After an exporter reconciliation with a fresh listing in any order, its lease reference names a lease if and only if that lease holds the exporter and has not ended |
| `LeaseProtocol.InvKept` | controller/internal/controller/lease_controller.go:75-149 | Every step keeps exclusivity, consistent statuses, distinct lease identities and a truthful acquisition log |
| `LeaseProtocol.WriteKeepsExclusive` | controller/internal/controller/lease_controller.go:577-587 | A status write decided on any covering listing cannot give out an exporter another live lease has, even when that lease was read stale |
| `LeaseProtocol.StatusInEveryRun` | controller/internal/controller/lease_controller.go:152-208 | In every run each persisted lease is Ready iff assigned and not ended, has a begin time iff assigned, an end time iff ended; unsatisfiable or invalid means ended and unassigned; the ended label implies ended |
| `LeaseProtocol.WrittenOnceInEveryRun` | controller/internal/controller/lease_controller.go:97-128 | Between any two states of a run, a lease object still there keeps its exporter, begin time, priority, ended mark and label, and an ended status is never written again |
| `LeaseProtocol.OneAcquisitionPerLease` | controller/internal/controller/lease_controller.go:413-445 | In every run at most one acquisition result is recorded per lease object |
| `LeaseProtocol.WriteKeepsLog` | controller/internal/controller/lease_controller.go:413-432 | A recorded success belongs to an assigned lease and a recorded failure to an unsatisfiable one, and no second record is ever added |
| `LeaseProtocol.ReleaseEndsLease` | controller/internal/controller/lease_controller.go:166-168 | A lease marked for release is ended by the next successful reconciliation, whatever it reads |
| `LeaseProtocol.LostLabelIsBackfilled` | controller/internal/controller/lease_controller.go:115-147 | Reconciling an ended lease again restores a lost ended label, changes nothing of the status and records nothing |
| `LeaseProtocol.EndedForCause` | controller/internal/controller/lease_controller.go:152-192 | In every run a lease that becomes ended is unsatisfiable or invalid, was marked for release, or has passed its expiration |
| `LeaseProtocol.RecordedIff` | controller/internal/controller/lease_controller.go:413-445 | A recorded write logs a success iff it assigns an exporter, a failure iff it finds the lease unsatisfiable, otherwise nothing |
| `LeaseProtocol.TimesInEveryRun` | controller/internal/controller/lease_controller.go:115-117 | In every run every persisted time is a whole second |
| `LeaseProtocol.ReleaseWasEntitled` | controller/internal/service/controller_service.go:1120-1163 | In every run a call about to mark a lease read it when its client owned it or its exporter held it, not yet marked, and not ended unless deleted by its owner |
| `LeaseProtocol.ReleaseMarksHeldLease` | controller/internal/service/controller_service.go:434-479 | In every run, whatever happened between a release call's read and its patch: the patch marks the lease of that name and changes nothing else, and if the lease read is still there, the exporter that asked holds it |
| `LeaseRuns.RecreatedLeaseIsReleased` | controller/internal/service/controller_service.go:1084-1118 | A reachable run in which an exporter's release patch marks a lease created again under the name, that it does not hold |
| `LeaseRuns.UpdateLease` | controller/internal/service/client/v1/client_service.go:348-438 | The call completes the requested times, merges them, refuses to move the begin of a started lease, completes again, transfers only a live lease to a known client, and stores the resulting spec or refuses |
| `LeaseRuns.UpdateAcceptedIff` | controller/internal/service/client/v1/client_service.go:348-438 | An update goes through iff the owner asks, the times add up alone and merged and leave a started begin alone, and a transfer is of a live lease to an existing client |
| `LeaseRuns.UpdateStores` | controller/internal/service/client/v1/client_service.go:371-428 | It stores the times given, the own ones where none is given, the new owner of a transfer, and nothing else |
| `LeaseRuns.UpdateIsAllowedIff` | controller/internal/service/client/v1/client_service.go:371-428 | Whether an accepted update keeps a started lease within a maximum is decided by the request alone |
| `LeaseRuns.OverstayNeedsEdit` | controller/internal/controller/lease_controller.go:169-187 | In every run a lease granted under a rule with a maximum, its window held, is ended by any reconciliation that reads the clock after the maximum, if every edit since stored allowed times |
| `LeaseRuns.EditOverstaysIff` | controller/internal/service/client/v1/client_service.go:371-428 | Exactly the edits that are not allowed let some later reconciliation, past the maximum, leave the lease live |
| `LeaseRuns.OverstayHappens` | controller/internal/service/client/v1/client_service.go:394-401 | For every maximum and every longer duration, a reachable run in which the client's update keeps the lease live past the maximum of every rule it could be granted under |
| `LeaseRuns.GrantIsAllowed` | controller/internal/controller/lease_controller.go:512-530 | At the grant itself the stored times are within the maximum of every rule that grants as much, if the window is held |
| `LeaseRuns.StoredWindowHeld` | controller/api/v1alpha1/lease_helpers.go:57-78 | An accepted request is stored with its window held iff storing does not lengthen it |
| `LeaseProtocol.ExporterReconciliation.constructor` | controller/internal/controller/exporter_controller.go:63-76 | The reconciliation starts from the persisted exporter |
| `LeaseProtocol.ExporterReconciliation.ReconcileLeaseRef` | controller/internal/controller/exporter_controller.go:148-174 | The loop leaves the last listed lease that has not ended and names the exporter, or nothing, and changes no other field |
| `LeaseProtocol.ExporterReconciliation.ReconcileOnline` | controller/internal/controller/exporter_controller.go:193-273 | Online iff seen within a minute and not reporting offline; an exporter lost longer is put offline; registered iff it has devices; looked at again in 30 s iff online |
| `LeaseReconcile.DecisionIff` | controller/internal/controller/lease_controller.go:211-407 | Each decision, kept, wait, invalid, error, unsatisfiable, pending or assigned, is taken iff a condition on the lease, the listing, the policies and the active leases holds |
| `LeaseReconcile.MatchingIsConsidering` | controller/internal/controller/lease_controller.go:239-300 | By selector an exporter is considered iff listed, selected and not disabled, and the lease refused iff some are selected and all disabled; pinned, iff found, selected and not disabled or allowed, else refused |
| `LeaseReconcile.OpenClusterHasNoSpot` | controller/internal/controller/lease_controller.go:471-483 | Without policies no entry is spot or limited and the priorities are equal, so the spot refusal never fires |
| `LeaseReconcile.AssignmentIsLeast` | controller/internal/controller/lease_controller.go:211-407 | A lease that gets as far as choosing is assigned iff some approved, reachable, unlisted and ready entry exists and the least entry is not spot, and then the least such entry is taken |
| `LeaseReconcile.AssignedIsUnlisted` | controller/internal/controller/lease_controller.go:340-403 | Whatever was read, an exporter is assigned only if no listed lease references it |
| `LeaseReconcile.AssignedIsEntry` | controller/internal/controller/lease_controller.go:377-403 | Whatever was read, an assignment grants an approved, reachable, free and ready entry, with the priority and spot access of its rule |
| `LeaseReconcile.EntriesAreExact` | controller/internal/controller/lease_controller.go:302-347 | The slice that is sorted holds exactly the approved reachable exporters, one per granting rule, with the lease listed on them |
| `LeaseReconcile.GrantedWithinMaximum` | controller/internal/controller/lease_controller.go:512-530 | Every rule with a maximum that grants what was granted bounds the expiration: no later than the maximum after the written begin time, for every accepted request whose window survives storage |
| `LeaseReconcile.NewStatusIs` | controller/internal/controller/lease_controller.go:97-117 | Field by field, what one reconciliation leaves in the status, from the decision and the clock readings |
| `LeaseReconcile.EndedIff` | controller/internal/controller/lease_controller.go:152-192 | A reconciliation leaves a lease ended iff it was, is found invalid or unsatisfiable, is marked for release, or holds an exporter past its expiration; so one that waits or is pending stays live |
| `LeaseReconcile.StatusInvKept` | controller/api/v1alpha1/lease_helpers.go:410-424 | One reconciliation takes a consistent status to a consistent one and rewrites nothing that is written once |
| `LeaseReconcile.TimerIsSet` | controller/internal/controller/lease_controller.go:169-188 | Every reconciliation that leaves a lease live sets the begin-time wait, the time to expiration, or the pending back-off; zero iff the expiration is the clock reading |
| `LeaseReconcile.ZeroTimerHappens` | controller/internal/controller/lease_controller.go:180-187 | A live lease looked at in the very instant of its expiration stays live and gets no timer |
| `LeaseReconcile.ExpiredLeaseEnds` | controller/internal/controller/lease_controller.go:169-184 | A reconciliation that reads the clock after the expiration ends the lease |
| `LeaseReconcile.PendingRequeueAfter` | controller/internal/controller/lease_controller.go:724-741 | The doubling loop returns the back-off for the time spent pending, one second without a pending condition |
| `LeaseReconcile.BackoffIsLeastPower` | controller/internal/controller/lease_controller.go:724-741 | That back-off is the least power-of-two number of seconds not below the time pending, capped at 30 s, for every elapsed time |
| `LeaseReconcile.Reconciliation.constructor` | controller/internal/controller/lease_controller.go:79-96 | A reconciliation starts from the persisted lease with an empty result |
| `LeaseReconcile.Reconciliation.SetPending` | controller/internal/controller/lease_controller.go:328-335 | Marks the lease pending without moving an earlier pending time, and sets the back-off |
| `LeaseReconcile.Reconciliation.AssignBest` | controller/internal/controller/lease_controller.go:304-403 | From the approved slice to a decision along one ordering the sort may produce; status and timer are those of the decision |
| `LeaseReconcile.Reconciliation.ReconcileExporterRef` | controller/internal/controller/lease_controller.go:211-407 | Takes a decision the specification allows for this lease and view, fails only on its error cases, and writes exactly that decision |
| `LeaseReconcile.Reconciliation.ReconcileBeginEndTimes` | controller/internal/controller/lease_controller.go:195-208 | Sets the begin time and Ready once, when an exporter has been assigned |
| `LeaseReconcile.Reconciliation.ReconcileEnded` | controller/internal/controller/lease_controller.go:152-192 | Ends the lease if it is unsatisfiable, invalid, released or expired; otherwise sets the expiration timer of a begun lease |
| `LeaseReconcile.Reconciliation.Reconcile` | controller/internal/controller/lease_controller.go:75-117 | The three steps in order give the status and the timer of one allowed decision, or an error that writes nothing |
| `Approval.AttachMatchingPolicies` | controller/internal/controller/lease_controller.go:461-542 | With policies an exporter is approved under a rule iff a policy covering it has the rule, a source matches the client and the request is within the maximum; once per matching source and in order; errors iff the client is unknown or a visited selector is malformed; unmatched descriptions are exact and without duplicates |
| `Approval.BadVisitIs` | controller/internal/controller/lease_controller.go:497-510 | Looking at a policy errs iff its selector is malformed or it covers the exporter and a source selector of some rule is |
| `Approval.AllApprovalsHas` | controller/internal/controller/lease_controller.go:496-540 | The approvals listed exporter by exporter, policy by policy, rule by rule and source by source are exactly those the policies mean |
| `Approval.VisitExporter` | controller/internal/controller/lease_controller.go:496-540 | The policy loop appends exactly the approvals of the policies for this exporter, in order, and sees exactly the descriptions they miss |
| `Approval.VisitPolicy` | controller/internal/controller/lease_controller.go:497-538 | A policy that does not cover the exporter adds nothing; one that does appends the approvals of its rules, in order, and sees what they miss |
| `Approval.VisitRule` | controller/internal/controller/lease_controller.go:503-537 | One rule appends an approval for each matching source if the request is within the maximum, and sees its description iff no source matches |
| `Ranking.ChoiceIsLeast` | controller/internal/controller/lease_controller.go:346-403 | For every listing and every sort the library may produce: spot rejection iff the least entry is spot, otherwise an assignment iff some entry is free and ready, and then of the least such entry |
| `Ranking.ChoiceIsOrderIndependent` | controller/internal/controller/lease_controller.go:595-664 | Neither the listing order nor the treatment of ties changes whether, and what, is assigned |
| `Ranking.SpotGrant` | controller/internal/controller/lease_controller.go:349-354 | A lease is granted under spot access iff every free and ready entry is spot and some free entry is not spot |
| `Ranking.SpotGrantHappens` | controller/internal/controller/lease_controller.go:349-403 | A free exporter without spot access that is still cleaning up makes the lease go to a ready one under spot access |
| `Ranking.PendingFor` | controller/internal/controller/lease_controller.go:356-395 | Nothing is assigned for want of readiness iff something can be had and none of that is ready, for want of availability iff nothing can be had or only from a spot lease |
| `Ranking.ChoiceIsFree` | controller/internal/controller/lease_controller.go:377-403 | In whatever order the entries stand, only a free and ready one is assigned |
| `Ranking.CompareIsIntended` | controller/internal/controller/lease_controller.go:598-621 | The comparator is the intended order (free, not spot, higher priority, alphabetical name) iff the priorities that decide do not wrap |
| `Ranking.CompareIsTotalPreorder` | controller/internal/controller/lease_controller.go:598-621 | Without wrap-around the comparator is total and transitive |
| `Ranking.BeforeIsStrictWeakOrder` | controller/internal/controller/lease_controller.go:589-621 | The intended order is asymmetric and transitive, and ties only entries that would grant the same |
| `Ranking.ExtremePrioritiesMisordered` | controller/internal/controller/lease_controller.go:611-613 | With the largest and the smallest priority the comparator puts the largest last |
| `Ranking.NamesAlphabetical` | controller/internal/controller/lease_controller.go:620-620 | Comparing names is the alphabetical order: the first difference decides, and a prefix comes first |
| `Ranking.NamesAntisymmetric` | controller/internal/controller/lease_controller.go:616-619 | Comparing names is antisymmetric and zero only for equal names |
| `Ranking.NamesTransitive` | controller/internal/controller/lease_controller.go:616-619 | Comparing names is transitive |
| `Ranking.AttachExistingLeases` | controller/internal/controller/lease_controller.go:577-587 | Each entry gets the last listed lease that references its exporter, ended or not, and keeps everything else |
| `Ranking.LastHolderNone` | controller/internal/controller/lease_controller.go:577-587 | No lease is attached iff no listed lease references the exporter |
| `Ranking.OrderApproved` | controller/internal/controller/lease_controller.go:595-626 | A permutation of the entries, sorted whenever the comparator is consistent on them |
| `Ranking.FilterHead` | controller/internal/controller/lease_controller.go:629-664 | Filtering keeps the order: its head is the first entry kept, and it is empty iff none is |
| `LeaseTimes.TimeFields.constructor` | controller/api/v1alpha1/lease_helpers.go:57-57 | The three fields hold the request |
| `LeaseTimes.TimeFields.Reconcile` | controller/api/v1alpha1/lease_helpers.go:57-78 | Fields are completed before the duration is validated; a conflicting request is left as it was; each error iff its condition |
| `LeaseTimes.AcceptedPatterns` | controller/api/v1alpha1/lease_helpers.go:30-78 | Accepted requests are exactly the documented patterns, and an accepted end always follows the completed begin |
| `LeaseTimes.RefusedFor` | controller/api/v1alpha1/lease_helpers.go:57-78 | Each refusal iff its cause: a duration that contradicts the window, none that can be told, or one that is not positive |
| `LeaseTimes.RunsItsDuration` | controller/internal/controller/lease_controller.go:169-184 | A lease on accepted times runs for its duration from the begin it asked for or else from its grant, and that is what rules compare |
| `LeaseTimes.WindowIsRequested` | controller/internal/controller/lease_controller.go:512-520 | A lease stored with a window and no duration is compared by the length of its window |
| `LeaseTimes.CompletionIsIdempotent` | controller/api/v1alpha1/lease_helpers.go:57-78 | A completed request is accepted again and not changed |
| `LeaseTimes.MaximumDurationRespected` | controller/internal/controller/lease_controller.go:169-187 | For every accepted request as stored: whenever it begins, the lease stays within the maximum of any rule that allows it, iff the window survives storage |
| `LeaseTimes.MaximumDurationSlack` | controller/internal/controller/lease_controller.go:512-530 | For every accepted request whose window a duration can hold, the maximum is overstepped by less than a second |
| `LeaseTimes.HalfSecondOver` | controller/api/v1alpha1/lease_helpers.go:70-72 | Ending at 10 s with a duration of 0.5 s is a request whose stored form oversteps the maximum |
| `LeaseLocks.InvKept` | controller/internal/service/controller_service.go:106-147 | Every atomic step of every goroutine keeps the counts exact, the holders on the entry in the map, at most one deleter per entry, and a deleter for every unreferenced entry still in the map |
| `LeaseLocks.CountIsHolders` | controller/internal/service/controller_service.go:106-147 | In every interleaving an entry counts exactly the goroutines that hold it |
| `LeaseLocks.HoldersShareMutex` | controller/internal/service/controller_service.go:113-134 | In every interleaving all holders for one lease name have the one entry the map has for it |
| `LeaseLocks.MutualExclusion` | controller/internal/service/controller_service.go:152-161 | In every interleaving at most one goroutine per lease is inside its critical section |
| `LeaseLocks.NeverHeldAgain` | controller/internal/service/controller_service.go:122-131 | An entry whose count reached zero stays at zero and is never held again, in every continuation |
| `LeaseLocks.RetryMakesProgress` | controller/internal/service/controller_service.go:122-129 | A failed attempt never spins on a stuck entry: either the entry has left the map or some goroutine is about to take it out |
| `LeaseLockGrain.OrderlyRunRefines` | controller/internal/service/controller_service.go:115-147 | Every run of single atomic operations in which no attempt increments an entry being backed out of is, seen coarsely, a run of the coarser machine |
| `LeaseLockGrain.OrderlySharesMutex` | controller/internal/service/controller_service.go:115-147 | In every such run all holders for one lease share the entry in the map |
| `LeaseLockGrain.OverlapLosesMutex` | controller/internal/service/controller_service.go:122-131 | An increment leaves its goroutine with a mutex outside the map, at once or through the pending deletion, iff another attempt was backing out of the entry |
| `LeaseLockGrain.FinerGrainLosesTheMutex` | controller/internal/service/controller_service.go:122-131 | A reachable run in which two goroutines hold different mutexes for one lease |
| `ListenQueues.InvKept` | controller/internal/service/controller_service.go:152-200 | Every step keeps: accepted tokens are those delivered, one refused by a failed stream, and those buffered, in order; live queues are the current ones; tokens are accepted once |
| `ListenQueues.OneLiveListener` | controller/internal/service/controller_service.go:152-161 | In every run at most one listener per lease is live |
| `ListenQueues.AcceptedByTheLiveListener` | controller/internal/service/controller_service.go:163-200 | In every run an accepted token is appended to the queue that is current and not superseded at that moment and to no other |
| `ListenQueues.DialAcceptedIff` | controller/internal/service/controller_service.go:176-200 | In every run a dial is accepted iff the lease has a live listener with room |
| `ListenQueues.DialRefusedFor` | controller/internal/service/controller_service.go:176-200 | In every run a dial is refused as unavailable iff there is no live listener, as exhausted iff there is one with its eight places taken |
| `ListenQueues.DeliveredInOrder` | controller/internal/service/controller_service.go:635-659 | In every run a listener delivers its tokens in the order they were accepted |
| `ListenQueues.DeliveredAtMostOnce` | controller/internal/service/controller_service.go:619-659 | In every run a token is delivered at most once, by at most one listener |
| `ListenQueues.SupersededLeavesNothing` | controller/internal/service/controller_service.go:639-653 | A listener that leaves because it was superseded has delivered all it ever accepted, and its buffer stays empty for the rest of the run |
| `ListenQueues.DoneNeverRefills` | controller/internal/service/controller_service.go:183-189 | A queue told to stop accepts nothing more, in every continuation |
| `ListenQueues.LostOnlyByLeavingEarly` | controller/internal/service/controller_service.go:635-659 | As long as its stream has neither failed nor been cancelled, what a listener accepted is what it delivered followed by its buffer |
| `ListenQueues.ControllerService.constructor` | controller/internal/service/controller_service.go:96-104 | No queue and no current listener at the start |
| `ListenQueues.ControllerService.SwapListenQueue` | controller/internal/service/controller_service.go:152-161 | The new queue becomes current and the one it supersedes, and no other, is told to stop |
| `ListenQueues.ControllerService.SendToListener` | controller/internal/service/controller_service.go:176-200 | Refused as unavailable without a current listener or with a superseded one, as exhausted with a full buffer; otherwise appended, and nothing else changes |
| `ListenSections.RunRefines` | controller/internal/service/controller_service.go:152-200 | Every run in which locking, each access to the maps and queues, and unlocking are separate steps is, section by section, a run of ListenQueues |
| `ListenSections.StepRefines` | controller/internal/service/controller_service.go:619-659 | Every such step keeps the lock and queue invariants together and is one step of ListenQueues or none |
| `ListenSections.SentToTheLiveListener` | controller/internal/service/controller_service.go:163-200 | In every such run a token is sent only into a queue open and current at that moment, although it was looked up and checked earlier |
| `ListenSections.OneInside` | controller/internal/service/controller_service.go:152-161 | Two goroutines inside sections of one lease are the same one |
| `ListenGrain.OrderlyRunRefines` | controller/internal/service/controller_service.go:115-200 | Every run of single atomic operations without an increment that overlaps a back-out is, section by section, a run of ListenQueues |
| `ListenGrain.LostTokenNeedsOverlap` | controller/internal/service/controller_service.go:163-200 | In every run of single atomic operations a token is sent to a queue open and current at that moment, unless an increment overlapped a back-out before |
| `ListenOverlap.OverlapCanLoseToken` | controller/internal/service/controller_service.go:115-134 | From every state an orderly run reaches in which an attempt has loaded an entry another one is backing out of, some continuation ends with a dial accepted by a closed queue |
| `ListenOverlap.AcceptedByAClosedQueue` | controller/internal/service/controller_service.go:115-134 | Such a run exists from the initial state |
| `AutoscalerRuns.NeverAboveMax` | controller/internal/exporterset/reconciler.go:763-802 | In every run mixing all rules with arbitrary lease, connection, pod and flag changes, a pool within its maximum never exceeds it |
| `AutoscalerRuns.LeasedAreUntouched` | controller/internal/exporterset/reconciler.go:654-742 | No reconciliation deletes, disables or changes a leased instance |
| `AutoscalerRuns.ReconcilePays` | controller/internal/exporterset/reconciler.go:202-265 | Every change a reconciliation makes lowers the measure; it creates only against a deficit and disables only without one |
| `AutoscalerRuns.DemandCreates` | controller/internal/exporterset/reconciler.go:787-799 | While a lease is pending, nothing is available and there is room, a reconciliation that deletes nothing creates |
| `AutoscalerRuns.DemandIsMet` | controller/internal/exporterset/reconciler.go:202-265 | Of three reconciliations in a row with a lease pending, nothing available and room at the first, one creates |
| `AutoscalerRuns.CreationAdds` | controller/internal/exporterset/reconciler.go:326-366 | A new instance counts as a replica at once and is available once it comes online |
| `AutoscalerRuns.CreationsBounded` | controller/internal/exporterset/reconciler.go:763-802 | In every quiet run at most the initial deficit is created. Quiet: leases fixed and none pending; instances come online, get pods and are listed in any order, but no pod finishes where finished instances are replaced |
| `AutoscalerRuns.DeficitIsCreated` | controller/internal/exporterset/reconciler.go:763-802 | Without a maximum, exactly the initial deficit has been created once the pool settles |
| `AutoscalerRuns.DeficitOfCounts` | controller/internal/exporterset/reconciler.go:763-785 | With nothing about to be deleted the deficit is max(0, minReplicas - replicas, minAvailable - (replicas - leased)) |
| `AutoscalerRuns.DrainedIsReplaced` | controller/internal/exporterset/reconciler.go:654-687 | A pool at its minimum made of one drained instance still makes a creation |
| `AutoscalerRuns.NoScaleUpAfterScaleDown` | controller/internal/exporterset/reconciler.go:805-900 | In every quiet run nothing is created after something was disabled |
| `AutoscalerRuns.ChangesBounded` | controller/internal/exporterset/reconciler.go:202-265 | In every quiet run, however long, the pool changes at most as often as the first pool's measure says |
| `AutoscalerRuns.SettledIff` | controller/internal/exporterset/reconciler.go:763-820 | A pool is settled iff there is nothing to delete, no room or no rule that wants more, and not more than both minimums |
| `AutoscalerRuns.SettledIsFixpoint` | controller/internal/exporterset/reconciler.go:202-265 | A settled pool is not changed whatever the memory, annotation and clock; any other pool is, once the cooldown has run out |
| `AutoscalerSettles.UnsettledIsBounded` | controller/internal/exporterset/reconciler.go:805-900 | In every quiet run, annotation, memory and timers as the reconciler writes them, all but a bounded number of the reconciliations that waited for their timers find the pool settled |
| `AutoscalerSettles.PoolSettles` | controller/internal/exporterset/reconciler.go:202-265 | Every quiet run with more than that many such reconciliations has reached a settled pool |
| `AutoscalerSettles.SettledForGood` | controller/internal/exporterset/reconciler.go:202-265 | In every quiet run a settled pool whose instances are all online stays settled and keeps exactly its instances |
| `AutoscalerSettles.TimerRipens` | controller/internal/exporterset/reconciler.go:827-855 | A reconciliation held back by the cooldown returns a timer after which that obstacle is gone |
| `AutoscalerSettles.TimerIsTight` | controller/internal/exporterset/reconciler.go:827-855 | The timer runs out in the very instant the guard opens or the cooldown has elapsed |
| `AutoscalerSettles.WaitsFall` | controller/internal/exporterset/reconciler.go:827-855 | While there is surplus, each reconciliation that waited and changed nothing leaves fewer timers to wait for, and none adds any |
| `AutoscalerRuns.DisablesAreSpaced` | controller/internal/exporterset/reconciler.go:827-895 | In every run of one process any two disables of a set are a cooldown apart, however stale the listings and annotations read |
| `Autoscaler.ActionIff` | controller/internal/exporterset/reconciler.go:202-265 | Deleted, created or disabled each iff a condition on the counts of the pool, the spec, the pending leases and the clock holds, the demand rule and the maximum included |
| `Autoscaler.DeletionLeaves` | controller/internal/exporterset/reconciler.go:654-742 | A deletion leaves all but the drained instances if there are any, else all but those whose pods have all finished |
| `Autoscaler.DisablesFirstAvailable` | controller/internal/exporterset/reconciler.go:858-899 | What is disabled is the first available instance of the listing |
| `Autoscaler.AnnotationIs` | controller/internal/exporterset/reconciler.go:813-897 | The annotation goes when there are no longer too many, and is stamped in whole seconds on a disable or when first needed |
| `Autoscaler.PodsAreRetried` | controller/internal/exporterset/reconciler.go:268-278 | Waiting pods are looked at again in five seconds unless another timer is set or something was deleted |
| `Autoscaler.CandidateIsAvailable` | controller/internal/exporterset/reconciler.go:813-899 | Past its guards, scale-down disables an online, enabled, unleased instance, and the warm buffer stays at or above its minimum |
| `Autoscaler.CandidateExists` | controller/internal/exporterset/reconciler.go:813-873 | Past its guards the first pass of the search never comes up empty |
| `Autoscaler.DrainLeavesMinimum` | controller/internal/exporterset/reconciler.go:662-683 | Whatever leases and pods do until the drained instances are deleted, at least minReplicas remain iff more than that were enabled, as they are when nothing was disabled before |
| `Autoscaler.DrainBelowMinimum` | controller/internal/exporterset/reconciler.go:662-683 | With one of two instances disabled but leased, scale-down disables the other, and the minimum of one can be lost |
| `Autoscaler.FindCandidate` | controller/internal/exporterset/reconciler.go:858-899 | The first idle online instance, else the first idle offline one, else none iff no instance is idle |
| `Autoscaler.ComputePoolState` | controller/internal/exporterset/reconciler.go:298-322 | The counting loop gives the four counts; available and leased instances never exceed the replicas |
| `Autoscaler.Delete` | controller/internal/exporterset/reconciler.go:654-742 | The deletion loops keep exactly the instances to keep, in order, and report whether any went |
| `Autoscaler.Reconciler.constructor` | controller/internal/exporterset/reconciler.go:827-834 | No disable is remembered at the start |
| `Autoscaler.Reconciler.ReconcileScaleDown` | controller/internal/exporterset/reconciler.go:805-900 | Disables one candidate iff surplus, guard and annotation all allow it, and remembers when; clears the annotation iff no surplus, stamps it when surplus is first seen or an instance disabled, else keeps it; the timer is what is left of the cooldown |
| `Autoscaler.Reconciler.Reconcile` | controller/internal/exporterset/reconciler.go:202-265 | Takes the one action of the first stage that applies: drained, finished, scale up, scale down; only the last touches the annotation; waiting pods are retried in 5 s if no other timer is set |
| `Selectors.Convert` | controller/api/v1alpha1/lease_helpers.go:83-175 | Succeeds iff no requirement is unsupported or malformed and no two equalities conflict, and then accepts exactly the label sets the requirements accept; each error only for its cause |
| `Selectors.AppendExclusions` | controller/api/v1alpha1/lease_helpers.go:163-169 | Folding the gathered inequalities into one expression per key preserves the meaning in any key order |
| `Selectors.ConflictIsUnsatisfiable` | controller/api/v1alpha1/lease_helpers.go:111-116 | No label set satisfies a selector refused for conflicting equalities |
| `Selectors.DoubleEqualsIsRefused` | controller/api/v1alpha1/lease_helpers.go:155-158 | The double-equals operator means what equals means, and only equals converts |
| `CivilDate.CivilFromUnixCorrect` | rust/jumpstarter-exec/src/log.rs:207-226 | For every i64 second: valid time of day, the month and day of the day-by-day calendar, the whole date iff its year fits an i32, and then counting back gives the second |
| `CivilDate.ClosedFormIsDayCount` | rust/jumpstarter-exec/src/log.rs:214-224 | For every day, before or after the epoch, the closed form is the date reached by counting days one at a time under the Gregorian leap rule |
| `CivilDate.CivilFromDaysInverts` | rust/jumpstarter-exec/src/log.rs:214-224 | The date is valid and days-from-civil gives the day back |
| `CivilDate.CivilFromDaysOfDate` | rust/jumpstarter-exec/src/log.rs:214-224 | Every valid date is the date of its own day number |
| `CivilDate.CountDaysInverts` | rust/jumpstarter-exec/src/log.rs:205-207 | Counting days one at a time and days-from-civil agree |
| `CivilDate.DatesAreDistinct` | rust/jumpstarter-exec/src/log.rs:205-207 | Two valid dates with the same day number are equal |
| `CivilDate.ShiftedYear` | rust/jumpstarter-exec/src/log.rs:214-220 | The era arithmetic places every day in its March-based year, on its day of that year |
| `CivilDate.YearOfEraBrackets` | rust/jumpstarter-exec/src/log.rs:217-220 | The year of the era is the one whose days bracket the day of the era |
| `CivilDate.DateFromShiftedYear` | rust/jumpstarter-exec/src/log.rs:221-224 | The month arithmetic turns the day of a March-based year into the right valid date, leap days included |
| `CivilDate.NoUnderflow` | rust/jumpstarter-exec/src/log.rs:216-223 | No unsigned intermediate value goes below zero, and the year, day and month stay in their ranges |
| `CivilDate.NoOverflow` | rust/jumpstarter-exec/src/log.rs:208-219 | No i64 intermediate value overflows for any i64 second |
| `CivilDate.YearWrapsAround` | rust/jumpstarter-exec/src/log.rs:225-225 | The first second past the range comes back as the year -2147483648 |
| `ExecServer.RunningChildInSnapshot` | rust/jumpstarter-exec/src/server.rs:234-251 | In every interleaving a registered child still running after shutdown is in the first snapshot iff no child with its pid was unregistered in between, and is then signalled |
| `ExecServer.ChildKeptIff` | rust/jumpstarter-exec/src/server.rs:77-88 | In every interleaving, pids reused or not, a registered child still running is in the set iff no child with its pid was unregistered since |
| `ExecServer.NoneRegisteredAfterShutdown` | rust/jumpstarter-exec/src/server.rs:323-339 | In every interleaving a child not registered by the time of the shutdown never is: it can only be refused, sent SIGTERM and waited for |
| `ExecServer.RefusedIsTerminated` | rust/jumpstarter-exec/src/server.rs:323-339 | In every interleaving a refused child is waited for only after it was sent SIGTERM, and that only after it was refused |
| `ExecServer.EveryChildAccountedFor` | rust/jumpstarter-exec/src/server.rs:234-251 | In every interleaving a child registered before the shutdown and still tracked after it, running or waited for, is in the snapshot and gets signalled unless a child with its pid was unregistered before |
| `ExecServer.RegisteredOnlyShrinks` | rust/jumpstarter-exec/src/server.rs:45-99 | In every interleaving, once shutdown is marked the registered set only shrinks and stays within the first snapshot, which never changes |
| `ExecServer.SnapshotIsSignalled` | rust/jumpstarter-exec/src/server.rs:234-251 | When the shutdown threads are done, every pid of the first snapshot has been signalled |
| `ExecServer.StaleRegistrationLosesChild` | rust/jumpstarter-exec/src/server.rs:323-415 | Registering a child can be followed by a step that drops it from the set iff its pid is still registered for a child already waited for |
| `ExecServer.ReusedPidLosesChild` | rust/jumpstarter-exec/src/server.rs:413-415 | A reachable run in which a running registered child is not in the set |
| `ExecServer.RuntimeState.constructor` | rust/jumpstarter-exec/src/server.rs:55-62 | Not shutting down and no child registered |
| `ExecServer.RuntimeState.BeginShutdown` | rust/jumpstarter-exec/src/server.rs:69-73 | Marks shutdown and returns exactly the registered children |
| `ExecServer.RuntimeState.RegisterChild` | rust/jumpstarter-exec/src/server.rs:77-84 | Registers iff shutdown is not marked |
| `ExecServer.RuntimeState.UnregisterChild` | rust/jumpstarter-exec/src/server.rs:86-88 | Removes the pid and nothing else |
| `OidcNames.NormalizedIsCanonical` | controller/internal/authorization/metadata.go:74-92 | For every username the result is empty or an RFC 1123 label of at most 63 characters without adjacent hyphens |
| `OidcNames.FixedPointsAreCanonical` | controller/internal/authorization/metadata.go:74-92 | A name is unchanged by normalisation iff it is such a label |
| `OidcNames.NormalizeIsIdempotent` | controller/internal/authorization/metadata.go:74-92 | Normalising twice is normalising once |
| `OidcNames.NormalizedIsWords` | controller/internal/authorization/metadata.go:74-92 | The result is the words of the lower-cased base name joined by single hyphens, cut to 63 characters without a trailing hyphen |
| `OidcNames.CollapseIsWords` | controller/internal/authorization/metadata.go:81-81 | Collapsing keeps the words and leaves single hyphens between them and at the ends that had any |
| `OidcNames.StripPrefixSpec` | controller/internal/authorization/metadata.go:52-57 | A name without a colon is left alone |
| `OidcNames.StripProvider` | controller/internal/authorization/metadata.go:52-68 | After the provider, exactly a service account is cut down to its namespace and name, whatever follows; of any other name exactly the provider and its colon go |
| `OidcNames.AccountsStayApart` | controller/internal/authorization/metadata.go:62-64 | Two service accounts with the same stripped name have the same namespace and name |
| `OidcNames.JoinSplit` | controller/internal/authorization/metadata.go:53-66 | Splitting at colons loses nothing and leaves no colon in a part |

## Left out

Assumptions of the lease protocol, all others being arbitrary:

- One lease worker runs at a time (controller/internal/controller/lease_controller.go:820 sets no concurrency), and the active-lease listing it reads covers every persisted assignment without the ended label; exporters, policies and clients may be read arbitrarily stale.
- Leases are created without the ended label, and a status write succeeds only on the version that was read. Times are persisted as whole seconds.

Weaker or narrower than the code:

- ExclusivityInEveryRun: assumes the covering listing above; a cache that misses a persisted assignment is not modelled.
- OrderApproved: stands for the library sort by what that promises, a permutation in order; where priorities wrap around, only the permutation is promised.
- CreationsBounded: assumes fresh reads and a selector that matches every owned exporter, as do NeverAboveMax and the other run results except DisablesAreSpaced.
- DisablesAreSpaced: a failed update is taken to have no effect, and deletion of the set, which clears the memory, is not modelled; subtracting from a negative cooldown does not wrap.
- PoolSettles: assumes fresh reads, up to their order, and that writing the annotation succeeds; reconciliations that come before their timer are allowed and not counted.
- UpdateLease: the read and the patch of an update are one call here; the run results allow any edit of a lease at any time. Whether the request's selector parses and whether the target of a transfer exists are inputs.
- CandidateIsAvailable: speaks of the pool that was read, not of one that changed since.
- MutualExclusion: takes an acquire attempt as one step; `LeaseLockGrain` says when that is right.
- ListenSections.RunRefines: takes an acquire attempt as one step too; ListenGrain.OrderlyRunRefines and ListenOverlap.OverlapCanLoseToken say what holds without.
- NormalizedIsCanonical: works on characters, and lower-casing is any function that leaves label characters alone and produces no ASCII capital.
- ReconcileScaleDown: the surplus annotation is an input and an output; that the surplus lasted a full cooldown is not claimed, since a scale-up does not clear it.

Modelled on values rather than in place: the slices that are sorted and filtered in place are reassigned sequences, so aliasing between a slice and its filtered form is not captured; 32-bit replica counts are unbounded.

Not modelled:

- The Kubernetes client, caches, watches and events, gRPC, TLS, token signing and OIDC flows; they are reads, writes and nondeterministic steps.
- Parsing of selector strings; the model starts from parsed requirements.
- Pods, config secrets, credentials, parameter merging, and condition and event messages.
- Status text of leases, tags, and the protobuf conversions; spot eviction, which the code does not implement.
- The exporter status check and router selection in Dial, the Status stream, and Router pairing.
- Sockets, umask, base64 and message framing of the exec server, its output forwarding, and what signals do to a child.
- Python packages, documentation, the web configuration and test doubles; they would only add easy members.
