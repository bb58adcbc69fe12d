# zed-lock: a verified model

`zed-lock` hands out exclusive locks that the operating system's descriptor lock
alone decides. A `LockManager` may run the blocking acquisition on a bounded
worker thread and pass the guard to the caller through a result slot; it must give
the lock back when the caller has stopped waiting. This project models that
protocol, the lock ordering and lock sets built on it, and the classifier of
Windows access lists that guards the lock directory, and proves what the crate
promises for any number of threads, requests, managers, locks and interleavings.

## Layout

| file | contents |
|---|---|
| `LockOrder.dfy` | ranks, sort keys, the position order, the per-thread list of held locks |
| `Limiter.dfy` | the compare-and-swap loop of the waiter cap, racing and alone |
| `WaitSlot.dfy` | the shared result slot and the waiter object, critical section by critical section |
| `Protocol.dfy` | all requests of all managers as one state machine; a step is a mutex section, a counter update, a kernel call or an event |
| `Coherence.dfy` | its inductive invariant |
| `Guarantees.dfy` | exclusivity, result conservation, terminal reasons, reservations, permits, events, wake-ups |
| `Failures.dfy` | that refusals and failures are final in every run |
| `Drain.dfy` | the progress measure and the clean final state |
| `Witnesses.dfy` | runs in which stronger claims fail |
| `Lifecycle.dfy` | the Quint model for any number of waiters, locks and set members |
| `CodeLifecycle.dfy` | the Quint invariants read off the code's protocol |
| `Threads.dfy` | which programs can deadlock under ordered acquisition, and that the others cannot |
| `LockCalls.dfy` | what one acquisition decides, what it and a release change, and unwinding |
| `SetOrder.dfy` | the sort of a lock set, its determinism, and what the order is good for |
| `LockSets.dfy` | `acquire_blocking`, release and `acquire_many_blocking` on one thread among others |
| `OrderedCalls.dfy` | those calls as moves of the machine in `Threads.dfy` |
| `SddlText.dfy`, `SddlRights.dfy`, `SddlClassifier.dfy` | security descriptor strings and their classifiers |
| `SddlDecisions.dfy` | what the classifiers decide, for every text and with every name written out |
| `Rendezvous.dfy` | the open-or-create retry loop |

A step of the protocol has a local part (`LocalNext`, on one request) and a shared
part (`Effect`, on the kernel table, a reservation set or a counter). The critical
sections and the receiver's bookkeeping used in `LocalNext` (`AfterSettle`, `AfterTake`,
`AfterPoll`, `AfterAbandon`, `AfterFinish`, `AfterSuppress`, `AfterDropCallback`) are the
functions that the methods of `SharedWait` and `LockWaiter` are proved against.

## Where the obvious claim is false

- The event log can show two owners of one lock, because `Released` is emitted after
  the unlock (src/lib.rs:711-736): `LogCanShowTwoOwners` is such a run, and
  `LogOverlapExactly` says when. Exclusivity is stated on the kernel table.
- Three conjuncts of the Quint model take several steps of the code for one. Each is
  characterised: `OwnershipExactly` (`WorkerOwnsBeforePublication` is a state where it
  fails), `ReasonsExactly` and `AbandonedExactly`. All others about waiters hold of the code
  in every reachable state (`CodeIsWellFormed`).
- A timed-out waiter can be dropped with its result already published
  (`PublishedAfterDeadline`, `LateResultExactly`); the Quint model has no such step,
  `Lifecycle.dfy` adds it.
- Ordered acquisition does not exclude every deadlock. The order check admits equal
  positions, the sort key may fold two paths together (src/lib.rs:1071-1078), and the
  class comes with the request, not with the path (src/lib.rs:38-39).
  `DeadlockExactly` says which programs can reach a wait-for cycle, for every key:
  those that ask for one path at a position within those at which they ask for another.
  `OneClassDeadlockExactly` is the case of one class for each path.
- The order of a lock set depends on the order of the input exactly when two different
  requests tie on rank and key (`OrderIsDeterministicExactly`).
- The comparison of two access lists is not a congruence for the classifiers
  (`StrayParenthesisSeparates`); `VerdictsAgreeExactly` and `BalanceAgreesExactly` say
  when verdicts agree, `ComparisonIsCongruence` gives the guard: equally many closing
  parentheses before the first opening one.
- formal/README.md:28 describes detached release as immediate; in the code the
  worker owns the lock until it drops the result. The model follows the code.
- `acquire_many_blocking` is documented to deduplicate its requests
  (src/lib.rs:585-586); the code rejects a set with duplicates, and so does the model.

## Model

| member | source | states |
|---|---|---|
| LockOrder.HeldOrder.CheckLockOrder | src/lib.rs:38-59 | accepted exactly if every held entry has a lower rank, or the same rank and no later key; decided by the maximum of the list |
| LockOrder.AllowsExactly | src/lib.rs:38-59 | the same of the specification's order check, ascending |
| LockOrder.LexLessExactly | src/lib.rs:42-49 | keys compare at their first difference, or by length if one extends the other |
| LockOrder.ClassesAscend | src/lib.rs:94-114 | the named classes ascend, and which custom levels coincide with them |
| LockOrder.RegisterThenDrop | src/lib.rs:66-92 | nested registrations unwind: dropping the last one leaves the list as it was |
| LockOrder.HeldOrder.Deregister | src/lib.rs:80-92 | dropping a registration removes the last matching entry only |
| LockOrder.RemoveLastAt | src/lib.rs:80-92 | removing the last match is cutting the list at that index |
| LockOrder.RemoveLastMultiset | src/lib.rs:80-92 | one registration goes, whatever order guards are dropped in |
| LockOrder.Trichotomy | src/lib.rs:38-59 | the order on rank and key is a strict total order |
| LockOrder.Transitive | src/lib.rs:38-59 | and transitive, so the maximum speaks for the whole list |
| WaiterLimiting.CounterIsExact | src/lib.rs:792-844 | in every run of any number of racing threads the counter is the number of permits and within the limit |
| WaiterLimiting.DropNeverWraps | src/lib.rs:836-844 | in every run the counter is positive exactly when some thread can drop a permit, so the decrement never wraps |
| WaiterLimiting.FailedSwapMeansAnotherSucceeded | src/lib.rs:805-829 | a swap that fails without being spurious means another thread's update went through since the last observation |
| WaiterLimiting.ObservationsAreReal | src/lib.rs:805-829 | the value by which a thread judges was the counter's value right after its last look |
| WaiterLimiting.RefusedExactlyAtLimit | src/lib.rs:805-829 | a thread in the loop is refused exactly if the counter was at the limit when it last looked, and tries to swap otherwise |
| WaiterLimiting.WaiterLimiter.Reserve | src/lib.rs:805-829 | under any scripted interference, one permit is taken from the value the winning swap met, or the counter is left alone after being seen at the limit |
| WaitSlots.SharedWait.Settle | src/lib.rs:912-925 | a live receiver gets the result and the worker the waker; a dead one leaves the result with the worker |
| WaitSlots.SharedWait.Poll | src/lib.rs:1018-1045 | the result is taken, or the slot holds a waker of the polling task |
| WaitSlots.SharedWait.Abandon | src/lib.rs:1048-1061 | the slot is closed and whatever was in it comes out |
| WaitSlots.SharedWait.WaitTimeout | src/lib.rs:966-989 | returns the first result that arrived, or times out with the slot seen empty; no result is lost |
| WaitSlots.FirstArrivalExactly | src/lib.rs:966-989 | the result returned is of the earliest sleep in which one came |
| WaitSlots.LockWaiter.Poll | src/lib.rs:1018-1045 | a completed waiter yields nothing more; completion clears the cancellation callback |
| WaitSlots.LockWaiter.WaitTimeout | src/lib.rs:966-1003 | the stored result or else the first that arrives is returned and completes the waiter; a timeout, taken only when time ran out, keeps it usable |
| WaitSlots.LockWaiter.Drop | src/lib.rs:1048-1069 | cancellation is reported exactly if the callback is still armed, and a stored result is dropped |
| ProtocolCoherence.LocalPlaces | src/lib.rs:886-1069 | every step keeps result, guard, slot, worker and receiver in one consistent configuration |
| ProtocolCoherence.LocalTally | src/lib.rs:378-583 | every step keeps the emitted events equal to what the phase, the kernel call and the receiver imply |
| ProtocolCoherence.LocalHandle | src/lib.rs:561-583 | every step keeps the callback armed exactly as long as completion, suppression and drop have not disarmed it, and its calls equal to the drops that met it armed |
| ProtocolCoherence.LocalLedger | src/lib.rs:890-1069 | every step keeps the settlement counts equal to what the worker and the receiver imply |
| ProtocolCoherence.LocalEffect | src/lib.rs:378-556 | the shared effect of a step is exactly the change in what its request has: permit, reservation, kernel lock |
| ProtocolCoherence.StepInvariant | src/lib.rs:378-1069 | every step of any request keeps the global invariant |
| ProtocolCoherence.RunInvariant | src/lib.rs:378-1069 | and so does every run |
| ProtocolGuarantees.GlobalExclusivity | src/lib.rs:430-468 | the kernel owns a path exactly when one request has the locked file for it, and a waiter's is with exactly one of worker, slot, receiver and the two drops |
| ProtocolGuarantees.KernelOwnsExactly | src/lib.rs:430-468 | a path is owned exactly from a grant until the unlock of that file, wherever the guard is meanwhile |
| ProtocolGuarantees.ResultConservation | src/lib.rs:904-1003 | the closure runs at most once and its result is in one pair of hands or settled in one way, never both, never lost |
| ProtocolGuarantees.OneNativeRequest | src/lib.rs:964-989 | any number of polls and timeouts keep one descriptor-lock call; a try reports only after that call |
| ProtocolGuarantees.AdmissionExactly | src/lib.rs:529-556 | a waiter is admitted exactly below the cap and refused exactly at it |
| ProtocolGuarantees.RefusalExactly | src/lib.rs:633-650 | a reservation is refused exactly when a rejecting call or guard of the manager has the path |
| ProtocolGuarantees.ContentionExactly | src/lib.rs:473-525 | a try is contended exactly when another request owns the path |
| ProtocolFailures.RefusalIsFinal | src/lib.rs:529-556 | after a refusal at the cap, or a thread that did not start, no step ever belongs to the request: it has run nothing, emitted nothing and holds nothing in every later state of every run |
| ProtocolFailures.FailureIsFinal | src/lib.rs:380-525 | after a failed open, order check or reservation there is never a kernel call, after a failed kernel call no second one; the request never owns, announces or stores a guard |
| ProtocolGuarantees.AbandonedIsNeverDelivered | src/lib.rs:558-583 | after abandonment a guard is only ever with the worker that drops it |
| ProtocolGuarantees.NoLeakPastAbandonment | src/lib.rs:558-583 | when receiver and worker are gone, everything acquired is released and nothing is owned, reserved or stored |
| ProtocolGuarantees.AbandonmentIsFinal | src/lib.rs:1048-1061 | no step revives a receiver |
| ProtocolGuarantees.UniqueAbandonmentReason | src/lib.rs:561-583 | at most one of TimedOut and Cancelled, once, none with a delivery, one whenever the receiver is gone; a receiver past suppression or drop has its callback disarmed |
| ProtocolGuarantees.DeadlineMeansUnpublished | src/lib.rs:966-989 | a deadline is decided only while the worker has not published |
| ProtocolGuarantees.LateResultExactly | src/lib.rs:564-575 | past a deadline the slot has a result exactly when the worker settled since; the drop that finds a guard releases it |
| ProtocolGuarantees.FailureReportsWhatItMet | src/lib.rs:473-525 | a failure is reported once, with its reservation gone: Contended exactly when the kernel call met another owner, Failed otherwise |
| ProtocolGuarantees.ReservationAgreement | src/lib.rs:633-656 | the reservation set is the set of paths of in-flight rejecting calls and guards, each once |
| ProtocolGuarantees.ReservedExactly | src/lib.rs:633-656 | a path is reserved exactly from before the kernel call of a rejecting request until after its failure or unlock |
| ProtocolGuarantees.RejectNeverWaitsForItsOwnManager | src/lib.rs:113-123 | a rejecting call never waits in the kernel for a rejecting request of its own manager |
| ProtocolGuarantees.PermitAccounting | src/lib.rs:529-556 | active waiters are the live permits, within the cap, never below zero |
| ProtocolGuarantees.AcquisitionsAreCapped | src/lib.rs:529-545 | the threads starting or inside an acquisition are as many as the counter says and within the cap |
| ProtocolGuarantees.EventConservation | src/lib.rs:448-468 | Acquired minus Released counts the guards that are live or being released |
| ProtocolGuarantees.NoLostWakeUp | src/lib.rs:912-989 | with a result stored, a parked thread and the last polling task are woken or still owed a wake-up by a worker that can take that step |
| ProtocolDrain.ProgressDecreases | src/lib.rs:890-930 | every grant, settle, drop or release step lowers a measure |
| ProtocolDrain.DrainIsBounded | src/lib.rs:890-930 | in any run without new requests, idle or not, the progress steps are no more than the measure lost |
| ProtocolDrain.SomeoneCanProgress | src/lib.rs:430-446 | while a request is unfinished, some request has a step that is neither a fault nor idle |
| ProtocolDrain.DrainedIsClean | src/lib.rs:711-747 | a state without such a step has no kernel owner, no reservation, no stored result and no active waiter |
| ProtocolDrain.Drain | src/lib.rs:529-556 | both together, from every reachable state |
| ProtocolWitnesses.WorkerOwnsBeforePublication | formal/waiter_lifecycle.qnt:296-308 | a reachable state in which the model's ownership conjunct is false |
| ProtocolWitnesses.LogCanShowTwoOwners | src/lib.rs:711-736 | a reachable state whose events show two unreleased guards of one path |
| ProtocolWitnesses.LogOverlapExactly | src/lib.rs:711-736 | the log shows two owners exactly when a request that has unlocked and not reported it is open in the log beside another |
| ProtocolWitnesses.PublishedAfterDeadline | src/lib.rs:564-575 | a reachable state with TimedOut emitted and the guard in the slot |
| WaiterLifecycle.StepIsSafe | formal/waiter_lifecycle.qnt:78-252 | the strengthened invariant is inductive for every action, with the added one |
| WaiterLifecycle.LifecycleSafety | formal/waiter_lifecycle.qnt:340-347 | the safety property in every run for any waiters, cap, locks and set length |
| WaiterLifecycle.HistoryExactly | formal/waiter_lifecycle.qnt:78-252 | in every run a waiter is in each set exactly by the actions on it: grants, deliveries, releases, cancellations and timeouts |
| WaiterLifecycle.LockSetStep | formal/waiter_lifecycle.qnt:317-338 | a set of any length is held as a prefix, whole, or not at all, as its status says |
| CodeLifecycle.CodeIsWellFormed | formal/waiter_lifecycle.qnt:276-294 | the nesting of the sets, the cap and the unique reason hold of the code in every reachable state, with reasons read from the events and detachment from the ledger |
| CodeLifecycle.CompletedExactly | formal/waiter_lifecycle.qnt:276-294 | a waiter is completed exactly when its result is stored, taken or settled |
| CodeLifecycle.ReasonsExactly | formal/waiter_lifecycle.qnt:283-284 | the reported reasons are abandonments exactly when no receiver is between its report and its drop |
| CodeLifecycle.OwnershipExactly | formal/waiter_lifecycle.qnt:296-308 | the ownership conjunct holds of the code exactly when no waiter owns the lock between hands |
| CodeLifecycle.AbandonedExactly | formal/waiter_lifecycle.qnt:310-313 | nothing abandoned is delivered; what was abandoned and completed is released exactly when neither side is in the middle of dropping a guard |
| OrderedThreads.StepInv | src/lib.rs:61-92 | a thread's list and the kernel table agree, and a waiting thread passed the check against its whole list |
| OrderedThreads.CycleWantsOnePosition | src/lib.rs:38-59 | with one class for each path, all threads of a wait-for cycle want one position, whatever the key |
| OrderedThreads.CycleExactlyWhenSelfWait | src/lib.rs:38-59 | if the requests of the program do not overlap, a cycle exists exactly when a thread waits for itself |
| OrderedThreads.SelfWaitExactly | src/lib.rs:38-59 | a request waits for its own thread exactly when the path is in that thread's list |
| OrderedThreads.SomeHolderCanStep | src/lib.rs:378-469 | then, without self-waits, whenever a thread is blocked some holder is not and has a step |
| OrderedThreads.OrderedThreadsNeverDeadlock | src/lib.rs:38-92 | over every run in which no thread asks for what it holds: no wait-for cycle, and some holder can always step, if the requests do not overlap |
| OrderedThreads.DeadlockExactly | src/lib.rs:38-92 | for every key and every program: some run in which no thread asks for what it holds reaches a wait-for cycle if and only if a request for one path lies between two for another |
| OrderedThreads.OneClassDeadlockExactly | src/lib.rs:1071-1078 | with one class for each path: if and only if two paths have equal rank and key |
| OrderedThreads.TwoClassesDeadlock | src/lib.rs:38-39 | a path asked for with two classes can deadlock with any path of a class between them, for every key |
| LockSets.LockThread.AcquireBlocking | src/lib.rs:380-469 | each verdict if and only if its condition on the inputs holds, with other threads changing both tables in between; the exact new state for success, sleep and failure |
| LockSets.LockThread.Attempt | src/lib.rs:390-446 | of what the others have, only what they themselves changed has changed; a failed kernel call gives its reservation back |
| LockCalls.VerdictsExactly | src/lib.rs:380-446 | the six verdicts exclude each other and each has an exact condition |
| OrderedCalls.InversionIsNoMove | src/lib.rs:402-411 | the order check of the call refuses exactly the requests that the thread machine does not enable |
| OrderedCalls.KernelCallIsMove | src/lib.rs:430-446 | in the kernel, the call is granted, asleep or failed exactly as the machine's thread is |
| OrderedCalls.GrantIsTwoMoves | src/lib.rs:430-468 | a granted call ends in the machine's Grant and Register moves |
| OrderedCalls.ReleaseIsTwoMoves | src/lib.rs:711-736 | a release is the machine's Unlock and Deregister moves |
| OrderedCalls.SetIsRun | src/lib.rs:612-622 | acquiring a set is a disciplined run of the thread machine |
| LockSets.LockThread.ReserveIfRequired | src/lib.rs:633-650 | a reservation is refused exactly when this thread or another of the manager has the path |
| LockSets.LockThread.Release | src/lib.rs:707-747 | a release gives back kernel lock, order entry and reservation, reports once, and leaves what the others did in between |
| LockSets.LockThread.UnwindInReverse | src/lib.rs:786-790 | guards are released from the last to the first |
| LockCalls.ReleaseLogReversed | src/lib.rs:786-790 | the k-th release reported is of the k-th guard from the end |
| LockSets.LockThread.FindDuplicate | src/lib.rs:602-610 | a duplicate is reported exactly when two canonical paths are equal |
| LockSets.LockThread.AcquireInOrder | src/lib.rs:612-622 | all guards in sorted order; or asleep with a prefix; or the prefix given back in reverse with this thread's ownership, reservations and order list as before, whatever the others did |
| LockSets.LockThread.AcquireMany | src/lib.rs:587-623 | in terms of the requests: a duplicate error exactly if two name one file; success gives one guard for each, for paths not owned before, ascending, and exactly these paths; any failure leaves ownership, reservations and order list as they were |
| LockSets.CanonicalSet | src/lib.rs:591-610 | the sorted set has the requests' canonical paths, classes and policies, each as often as given |
| LockCalls.GrantsTake | src/lib.rs:612-622 | a granted prefix adds exactly its paths and reservations, none of them had before |
| LockCalls.UnwindRestores | src/lib.rs:612-622 | unwinding any granted prefix gives back exactly what this thread took and logs the releases in reverse |
| SetOrder.SortOrdered | src/lib.rs:595-600 | of two sorted requests the first has the lower rank, or the same rank and no later key; nothing is lost |
| SetOrder.SortIsStable | src/lib.rs:595-600 | requests that tie keep their order |
| SetOrder.OrderIsDeterministicExactly | src/lib.rs:585-600 | every permutation of a set is sorted alike if and only if no two different requests tie on rank and key |
| SetOrder.SetIsNotInItsOwnWay | src/lib.rs:602-622 | in a sorted set without duplicates every request is judged as if nothing of the set had been acquired |
| SetOrder.GrantedExactly | src/lib.rs:612-622 | the set is granted if and only if each of its requests would be granted alone |
| SetOrder.InversionOnlyAtFirst | src/lib.rs:587-622 | if the smallest request passes the order check, so does every later one |
| SddlText.SplitJoin | src/path_security.rs:147-159 | splitting joined fields gives the fields back |
| SddlText.JoinSplit | src/path_security.rs:147-159 | joining split fields gives the text back |
| SddlText.SameIgnoringCaseExactly | src/path_security.rs:170-173 | equal letter for letter, small letters of the alphabet being equal to their capitals |
| SddlRights.DigitsCompute | src/path_security.rs:212-217 | the checked digit loop computes the denoted number and fails exactly when it exceeds 32 bits |
| SddlRights.HexRightsExactly | src/path_security.rs:200-217 | after either prefix, any text is read-only exactly when it denotes a 32-bit mask, with or without plus, that has no modifying bit |
| SddlRights.EveryMaskIsJudged | src/path_security.rs:200-217 | each 32-bit mask has texts, with any leading zeros, that are judged by its bits |
| SddlRights.MeetsExactly | src/path_security.rs:201-210 | a mask modifies exactly if one of ten bits is set |
| SddlRights.TokensDecide | src/path_security.rs:218-227 | a list of two-letter tokens is read-only exactly when each token is |
| SddlRights.OtherRightsExactly | src/path_security.rs:218-227 | any text that is no hexadecimal mask is read-only exactly when it is a list of the eight read and execute tokens |
| SddlRights.LeadingZeros | src/path_security.rs:212-217 | leading zeros do not change the denoted mask |
| SddlRights.FullControlModifies | src/path_security.rs:162-167 | full control implies modify |
| SddlRights.FullControlExactly | src/path_security.rs:162-167 | full control is one of four texts up to case |
| SddlClassifier.SddlIsUserPrivate | src/path_security.rs:95-125 | the loop with its flag and early returns decides the order-free condition |
| SddlClassifier.AcesOfRendered | src/path_security.rs:140-144 | splitting a rendered descriptor gives its ACEs back |
| SddlClassifier.ParseText | src/path_security.rs:147-159 | parsing a rendered six-field ACE gives its type, rights and trustee |
| SddlDecisions.RenderedDecision | src/path_security.rs:95-125 | the exact decision for every rendered descriptor, with the trustees and rights written out |
| SddlDecisions.RenderedExclusive | src/path_security.rs:133-138 | the same for the exclusive classifier |
| SddlDecisions.TrusteesExactly | src/path_security.rs:170-197 | a trustee is the user's, a controller or a broad group exactly by these names, up to case |
| SddlDecisions.TrusteeNamesOneUser | src/path_security.rs:170-173 | a trustee other than the system that matches one sid matches another exactly if the two are equal up to case |
| SddlDecisions.StrangersAreRejected | src/path_security.rs:115-120 | a descriptor that allows nothing to the sid or a controller by name is rejected for it |
| SddlDecisions.AcesAreInnermost | src/path_security.rs:140-144 | of any text, the ACEs are exactly the innermost parenthesised texts |
| SddlDecisions.DecisionOnEveryText | src/path_security.rs:95-138 | hence the decision of both classifiers on any text |
| SddlDecisions.SixFields | src/path_security.rs:147-159 | an ACE counts exactly with six fields, by the first, third and last |
| SddlDecisions.ProtectedExactly | src/path_security.rs:239-242 | a rendered descriptor counts as protected exactly if the flag begins it or stands right before the first ACE |
| SddlDecisions.RenderedComparison | src/path_security.rs:245-258 | rendered descriptors compare equal exactly if both begin an access list and their ACEs are equal one by one up to case |
| SddlClassifier.OrderIsIrrelevant | src/path_security.rs:95-125 | permuting the ACEs or changing the control flags does not change the verdict |
| SddlClassifier.TrustIsNeverBroad | src/path_security.rs:86-93 | an accepted descriptor never owes its trusted controller to a broad trustee |
| SddlClassifier.OwnDescriptorIsAccepted | src/path_security.rs:79-83 | the descriptor written for a delimiter-free sid is accepted, as private and as protected, exactly when the sid is non-empty and not broad |
| SddlClassifier.ComparisonIsPartialEquivalence | src/path_security.rs:245-258 | the comparison is symmetric and transitive, and reflexive where it applies |
| SddlClassifier.ComparisonIsCongruence | src/path_security.rs:245-258 | related descriptors get the same verdicts from both classifiers, given equally many closing parentheses before the first opening one |
| SddlClassifier.VerdictsAgreeExactly | src/path_security.rs:95-138 | for related descriptors, the exact condition for equal verdicts of each classifier |
| SddlClassifier.BalanceAgreesExactly | src/path_security.rs:95-98 | related descriptors balance alike exactly when they have equally many stray parentheses or both fail the check |
| SddlClassifier.StrayParenthesisSeparates | src/path_security.rs:245-258 | two related descriptors that each classifier tells apart |
| Rendezvous.OneRendezvous | src/path_security.rs:423-440 | at most one creator, one file for all, two rounds at most |
| Rendezvous.OpenersFinish | src/path_security.rs:423-440 | at most 3n calls in any interleaving of n openers; when none has a call left all are done with the same file, which one of them made if it was not there |
| Rendezvous.CallsExactly | src/path_security.rs:423-440 | one call joins a file that is there, two make it, three join after losing the race |
| Rendezvous.Directory.OpenFinalComponent | src/path_security.rs:423-440 | the loop opens the existing file, creates it, or joins the rival's after one retry |

## Left out

- Operating-system behaviour: the kernel is a table with one owner for each path and
  grants in any order; crashes, fairness and network filesystems are not modelled.
- Memory ordering and mutex poisoning: every atomic step and mutex section is
  sequentially consistent, and no event sink, waker or acquisition panics.
- Forgotten guards: every guard is eventually owned by code that may drop it.
- Clocks, thread names, error texts and owner diagnostics; a timeout is a choice made
  while the slot is empty under its mutex.
- File-system checks and canonicalization: opening succeeds or fails as an input, and
  canonical paths are stable and idempotent, one inode each.
- ProtocolDrain.Drain: a guard may be released at any time; whether a thread that is
  itself blocked gets to release another guard is the subject of `Threads.dfy`.
- OrderedThreads.OrderedThreadsNeverDeadlock: guards acquired directly and released on the same
  thread; `acquire` registers the order on the worker's list, so it promises nothing
  across waiters (src/lib.rs:540-545). Requests queue or come from different managers;
  a reservation can only refuse one earlier.
- LockSets.LockThread.AcquireBlocking: what the other threads have is an input at each of its
  accesses to the shared tables; they never take what this thread has, as
  `GlobalExclusivity` and `ReservationAgreement` prove of the protocol. A call that the
  kernel has not decided is reported as asleep, not continued.
- LockSets.LockThread.Release: unlock errors are not modelled; the descriptor is closed
  in any case.
- WaitSlots.SharedWait.WaitTimeout: the naps are an input and end when time runs out;
  `wait`, which may sleep forever, is the `CheckOrPark` step of the protocol.
- Rendezvous.OneRendezvous: no deletion of the lock file and no I/O error other than a
  missing or an already existing file.
- The rejecting and idle actions of the Quint model and its witness flags, which change
  nothing else; refusals are proved of the code (`AdmissionExactly`, `RefusalExactly`).
- `LockWaiter::spawn` with a caller's own closure and no cancellation callback.
- The waiter cap bounds workers inside the acquisition, not results waiting in slots,
  because the permit is dropped before publication; the model follows the code.
- Windows foreign calls, Unix mode bits, directory creation, builders, getters, and
  contention error codes.
