# DevIt: a verified model of the orchestration daemon and its tools

DevIt lets one program delegate work to another through a small daemon. The
daemon keeps tasks, leases, approvals and message queues, writes an HMAC-chained
journal, limits screenshots and shuts itself down when idle. Around it are a
merge assistant, path canonicalisation, a directory lister and an order of
approval levels. This project models those parts in Dafny and proves what they
guarantee: over every run, every file, every path and every log.

Check everything with `dafny verify dfyconfig.toml`.

## How the model is laid out

| file | what it models |
|---|---|
| `Wrappers.dfy` | `Option` and `Result` |
| `DaemonModel.dfy` | the daemon state as a value; every section of code that holds the state lock as a relation between two states |
| `DaemonKeeps.dfy`, `DaemonQueues.dfy` | what each section keeps: agreement of the stores, order of delivery |
| `DaemonProtocol.dfy` | runs: any interleaving of sections, with handlers that have given up the lock kept as calls in flight |
| `DaemonAuthority.dfy` | who may cause a lease |
| `DaemonReports.dfy` | who hears of a report or a timeout, back to the DELEGATE |
| `DaemonFates.dfy` | what becomes of every DELEGATE and every decision |
| `DaemonPresence.dfy` | whom the daemon takes for present; what a client that asks is given |
| `DaemonConservation.dfy` | bookkeeping over runs with fresh ids |
| `DaemonSweep.dfy` | the clock sweep, exactly |
| `DaemonLedger.dfy` | the same books over every run, whatever ids the clients use |
| `DaemonLimits.dfy` | which messages are lost, and which finished tasks start again |
| `DaemonIdle.dfy` | what a daemon that looks idle may still do |
| `DaemonState.dfy` | the state as an object updated in place, one method per section, each proved against its relation |
| `Journal.dfy` | the HMAC-chained journal: appender, verifier, what an end hash commits to |
| `JsonText.dfy` | serialised JSON objects, and why no such object is the end of another |
| `ScreenshotLimiter.dfy` | the sliding-window rate limiter |
| `IdleShutdown.dfy` | the idle-shutdown loop |
| `MergeText.dfy`, `MergeAssist.dfy`, `MergeResults.dfy`, `MergeExamples.dfy` | lines and joins; the two scans over conflict markers; what listing, choosing and resolving come to together; every file with one hunk, written out |
| `Paths.dfy`, `PathSandbox.dfy` | lexical normalisation; canonicalisation inside a root, in its two copies |
| `DirectoryWalk.dfy`, `DirectoryReach.dfy` | the explicit-stack walk; which directories it lists |
| `ApprovalLevels.dfy` | the order of approval levels against the paths they open |

The daemon comes in two forms that are tied together. `DaemonState.State` is the
object with its maps; each of its methods ensures one of the relations of
`DaemonModel` between the old and the new state. `DaemonProtocol` lets those
relations happen in any order, by any number of handlers, and the theorems about
runs are about that. An approval decision gives up the lock between taking the
approval, journaling the grant and creating the lease, so those are three
sections with a call in flight between them.

Clocks, the file system, the policy, the HMAC under a fixed key, the outcome of
writes and the contents of files are parameters. HMAC (section 2 of RFC 2104) is
any function into strings of 44 base64 characters (section 4 of RFC 4648); that
no two hashed inputs collide is an assumption about the inputs of the two logs
compared, not about the function.

## What the code does not promise

The code is followed where a stronger claim would be natural but false, and the
exact extent is proved:

- A poll or heartbeat hands over the first waiting message and discards the
  rest, and a sweep discards the queue of a client it drops, the timeouts it has
  just queued included. Over a run a client loses nothing exactly when no section
  of it is one of these with something to discard (`DaemonLimits.StepLoses`,
  `DaemonLimits.NothingLostExactly`).
- A final task state is not final. A finished task becomes active again exactly
  by a report whose status word is neither final nor an acknowledgement, or by a
  lease for a DELEGATE that reuses its id (`DaemonLimits.FinishedTaskRestarts`);
  with fresh ids only by the report (`DaemonLimits.FreshFinishedTaskRestarts`).
- Not every DELEGATE is answered. One that is allowed for a worker who is not there
  leaves no trace, and no other does (`DaemonFates.DelegatesVanishExactly`); a
  pending approval that is decided on with an unclear verdict is gone with nothing
  to show for it, and no other is (`DaemonFates.DecisionsVanishExactly`). Every
  other one is denied on record, held, in the hands of a handler, refused on record
  or leased (`DaemonFates.EveryDelegateHasItsFate`).
- A DELEGATE may name a client to hear of the outcome. Timeouts and failures go
  there, but a worker's report goes to whomever the NOTIFY names and otherwise to
  the sender of the DELEGATE; the cases in which that is the client named are exact
  (`DaemonReports.ReportsReachTheDelegator`).
- The idle check does not see handlers between two sections. A daemon without
  visible work can still create a lease, without a new DELEGATE, exactly when
  such a handler owes one (`DaemonIdle.IdleButOwing`), and both kinds of handler
  can be reached: after a grant (`DaemonIdle.IdleWithAGrantInFlight`) and after
  an allowed DELEGATE (`DaemonIdle.IdleWithADelegationInFlight`).
- Leases are not conserved when ids are reused. In every run, leases created =
  live + expired + settled + overwritten; the books balance exactly when nothing
  was overwritten (`DaemonLedger.BooksBalanceExactly`), and the same DELEGATE
  sent twice overwrites (`DaemonLedger.ReusedIdOverwrites`).
- Opening a journal restarts its chain, and a failed write leaves a gap. What a
  journal leaves verifies exactly when it was opened over an empty file and no
  write succeeded after one had failed, or over a file that verified and no write
  succeeded at all (`Journal.ReopeningRestartsTheChain`).
- The hashed text tells a payload from all others with its event exactly when no
  field a client supplies holds a `|` (`Journal.ClientSeparatorsDecide`); wherever
  one does, another log has the same hashes throughout
  (`Journal.SeparatorsInFieldsAreAmbiguous`).
- Resolving a merge is not idempotent. It leaves exactly those files alone that
  have no marker line, no blank first line, no final newline and no carriage
  return before a newline (`MergeResults.ResolvingLeavesAlone`), so a second time
  changes nothing exactly when the chosen texts have no marker line and the
  segments written join to such a text (`MergeResults.ResolvingTwice`, with an
  example to the contrary in `MergeResults.ResolvingIsNotIdempotent`).
- A canonicalisation root two or more directories deep refuses every path, and
  so does the current directory (`PathSandbox.DeepRootsRefuseEverything`).
- The two copies of `canonicalize_with_nofollow` agree on absolute paths only
  (`PathSandbox.CopiesAcceptTheSame`).
- A privileged level satisfies levels whose paths it does not cover
  (`ApprovalLevels.SatisfiesCoversExactly`).

## Model

| member | source | states |
|---|---|---|
| `DaemonProtocol.EveryReachableStateIsConsistent` | devitd/src/main.rs:604-832 | in every state of every run: each live lease's task is active, active tasks are not final and without a lease have at least one notice, completed tasks are final and at most 1000, keys are the ids of what they map to |
| `DaemonProtocol.StepConsistent` | devitd/src/main.rs:2038-2127 | one section of any handler, or a sweep, keeps those agreements |
| `DaemonProtocol.DeliveryKeepsOrder` | devitd/src/main.rs:591-602 | over any run, what a client got by poll or heartbeat is a selection of what was queued under its id, in order and without repetition |
| `DaemonProtocol.StepInOrder` | devitd/src/main.rs:1721-1735 | one section keeps each queue a tail of everything queued for that client, and deliveries before that tail |
| `DaemonQueues.MailedInOrder` | devitd/src/main.rs:591-596 | queueing keeps delivery in order for every client |
| `DaemonQueues.HandedOverInOrder` | devitd/src/main.rs:2592-2601 | handing over a queue's head keeps delivery in order for every client |
| `DaemonQueues.DeadDroppedInOrder` | devitd/src/main.rs:782-795 | dropping the queues of dead clients keeps it too |
| `DaemonQueues.AllExpiredInOrder` | devitd/src/main.rs:616-779 | so do the timeout messages of a sweep |
| `DaemonQueues.PutAllQueue` | devitd/src/main.rs:591-596 | queueing appends to each client's queue exactly what is addressed to it |
| `DaemonKeeps.FailureRecordedKeeps` | devitd/src/main.rs:2688-2766 | a refused delegation, recorded, leaves the stores in agreement |
| `DaemonKeeps.NotifiedKeeps` | devitd/src/main.rs:2278-2542 | a NOTIFY, even a late or reactivating one, leaves the stores in agreement |
| `DaemonKeeps.LeaseExpiredKeeps` | devitd/src/main.rs:616-704 | so does the expiry of one lease |
| `DaemonKeeps.SweptKeeps` | devitd/src/main.rs:604-798 | so does a whole sweep, in whatever order it visits the leases |
| `DaemonKeeps.FiledKeeps` | devitd/src/main.rs:804-814 | filing a task that has a notice keeps both stores in order and drops nothing from the active one |
| `DaemonAuthority.EveryLeaseIsAuthorised` | devitd/src/main.rs:1761-1842 | every lease created in a run was authorised by an earlier section: an Allow for a configured worker or a client then alive, or a grant of an approval then pending that a NeedApproval had filed; it goes to the worker and comes from the sender of that message |
| `DaemonAuthority.OneLeasePerAuthorisation` | devitd/src/main.rs:2038-2127 | of two leases of a run each has an authorising section before it, and no section authorises both |
| `DaemonAuthority.ApprovalsAreConsumedOnce` | devitd/src/main.rs:3113-3116 | no approval id is consumed twice, however decisions interleave |
| `DaemonAuthority.EveryLeaseOnFileWasCreated` | devitd/src/main.rs:2073-2083 | every live or expired lease was put there, unaltered, by a section that created it for the message of its handler: the same task, worker, sender and return target, and fifteen minutes |
| `DaemonAuthority.AlwaysAccounted` | devitd/src/main.rs:2002-2029 | every pending approval and every call in flight has its origin among the earlier sections |
| `DaemonAuthority.GoneForGood` | devitd/src/main.rs:1976-1976 | an approval that is gone never comes back |
| `DaemonAuthority.LeasesChange` | devitd/src/main.rs:2279-2282 | only lease creation makes leases; everything else carries them over, moves them to the expired ones or settles them |
| `DaemonReports.TimeoutsAreTold` | devitd/src/main.rs:616-761 | a sweep visits exactly the leases past their deadline, each once, and for each queues one failed NOTIFY about it for the lease's return target or, without one, its original sender, and journals a line to that client |
| `DaemonReports.ReportsAreTold` | devitd/src/main.rs:2278-2402 | a NOTIFY that is no ACK queues one message about its task with its status word, for the client it names, else the original sender of the live lease, else of the expired one, else its own sender, and journals a line to that client |
| `DaemonReports.ReportsAreFiled` | devitd/src/main.rs:2342-2391 | the record found, or a fresh one for the worker, gains that notice and the status the word names; final ones go to the completed store within its limit, others to the active one |
| `DaemonReports.ExpiriesAreFiled` | devitd/src/main.rs:660-704 | a task whose lease expires gains a failed notice in the same way, or a fresh failed record for the worker of the lease |
| `DaemonReports.LeasesGoBack` | devitd/src/main.rs:2073-2083 | every lease on file goes back to an earlier DELEGATE of its id and carries its worker, sender, return target and the deadline of the section that created it |
| `DaemonReports.TimeoutsReachTheDelegator` | devitd/src/main.rs:628-747 | over any run each timeout is queued for the client that DELEGATE names, and journaled to it, by a sweep more than 900 seconds after the lease was created |
| `DaemonReports.ReportsReachTheDelegator` | devitd/src/main.rs:2287-2292 | over any run the report on a lease goes to the client the NOTIFY names or else to the sender of that DELEGATE; exactly when that is the client the DELEGATE names |
| `DaemonFates.DelegatesAreDispatched` | devitd/src/main.rs:1737-1968 | a DELEGATE is denied with a policy line, failure messages and a failed record; or held with the approver told; or, allowed, launches its delegation if the worker is configured or was heard of within thirty seconds, and else does nothing |
| `DaemonFates.DecisionsAreTaken` | devitd/src/main.rs:3113-3124 | a decision removes the approval; a grant or denial of a pending one launches its handler, anything else launches none |
| `DaemonFates.HandlerGoesOn` | devitd/src/main.rs:2038-2127 | over any run a handler is at its work until the one section that ends it, and never again |
| `DaemonFates.HandlersEndOnce` | devitd/src/main.rs:2097-2124 | no handler records a refusal or creates a lease twice |
| `DaemonFates.RefusalsAreCarriedOut` | devitd/src/main.rs:3167-3262 | over any run a refused approval is either still in hand or a later section has recorded it: one policy line by the approver, the failure mail to the clients the DELEGATE names and a failed record |
| `DaemonFates.RefusalCanBeRecorded` | devitd/src/main.rs:3216-3262 | a refusal in hand can be recorded next, in any state |
| `DaemonFates.GrantsAreCarriedOut` | devitd/src/main.rs:3123-3166 | over any run a granted approval is either still in hand or a later section has created its lease and told the worker, and the grant was journaled before |
| `DaemonFates.AllowedAreCarriedOut` | devitd/src/main.rs:1840-1968 | over any run an allowed message whose worker is there is either still in hand or leased, and the worker told exactly if it is not a configured one |
| `DaemonFates.HeldUntilDecided` | devitd/src/main.rs:1992-2029 | a message held for approval stays on file as it is until a decision names it |
| `DaemonFates.EveryDelegateHasItsFate` | devitd/src/main.rs:1737-1968 | in every state of every run each DELEGATE is denied on record, held, in the hands of a handler, leased, refused on record, decided on unclearly, or was allowed for a worker who was not there |
| `DaemonFates.DelegatesVanishExactly` | devitd/src/main.rs:1946-1953 | a DELEGATE leaves no trace exactly in that last case |
| `DaemonFates.DecisionsVanishExactly` | devitd/src/main.rs:3269-3272 | a decision on a pending approval launches nothing exactly if the verdict is unclear |
| `DaemonPresence.OnFileWhilePresent` | devitd/src/main.rs:782-795 | over any run a client is on file exactly if it has registered with the right version and no sweep has come more than thirty seconds after its last sign of life, whose time is on file |
| `DaemonPresence.LiveClientsWereSeen` | devitd/src/main.rs:572-576 | the daemon sees live clients exactly if some client gave a sign of life less than thirty seconds ago |
| `DaemonPresence.RegistrationsAreJournaled` | devitd/src/main.rs:1668-1690 | exactly the accepted registrations are journaled, to the orchestrator |
| `DaemonPresence.WaitingIsSentSince` | devitd/src/main.rs:591-602 | what waits for a client is all that has been queued for it since its queue was last emptied |
| `DaemonPresence.PollsGiveTheOldest` | devitd/src/main.rs:2592-2601 | over any run a client that polls or beats is given the oldest message queued since its queue was last emptied, if any, and nothing else |
| `DaemonPresence.OnlyWhoAsksIsGiven` | devitd/src/main.rs:2592-2601 | no other section hands anything over |
| `DaemonConservation.LeasesAreConserved` | devitd/src/main.rs:616-704 | with fresh ids, in every state: leases created = live + expired + settled by a NOTIFY; live and expired leases are disjoint, active and completed tasks are disjoint, no task with an expired lease is active |
| `DaemonConservation.StepOrderly` | devitd/src/main.rs:2278-2391 | one section keeps that balance and those separations |
| `DaemonConservation.NotifiedCount` | devitd/src/main.rs:2279-2282 | a NOTIFY takes one lease off the books if it settles one, and none otherwise |
| `DaemonConservation.NotifiedApart` | devitd/src/main.rs:2342-2391 | a NOTIFY leaves no task in two stores |
| `DaemonConservation.LeaseExpiredApart` | devitd/src/main.rs:616-704 | expiry keeps the stores apart and the number of leases, live and expired together |
| `DaemonLedger.StepOverwrites` | devitd/src/main.rs:2098-2100 | whatever the ids, one section changes created - live - expired - settled by exactly the leases it overwrites: one live lease of the same id, or the expired leases of the tasks that expire again |
| `DaemonLedger.BooksBalanceExactly` | devitd/src/main.rs:616-618 | in every state of every run: created = live + expired + settled + overwritten, so the books balance exactly when no section has overwritten a lease |
| `DaemonLedger.ReusedIdOverwrites` | devitd/src/main.rs:2098-2100 | a run of two DELEGATEs with one id after which they do not balance |
| `DaemonSweep.SweepMovesExactlyTheOverdue` | devitd/src/main.rs:604-798 | a sweep moves exactly the leases past their deadline, takes their tasks out of the active store, adds one journal line and one message each, and keeps every queue but those of clients it drops |
| `DaemonSweep.SweepFailsTheOverdue` | devitd/src/main.rs:660-704 | each overdue task ends failed with the timeout noticed last; other completed tasks are untouched; the limit costs the least recent records, as if applied once at the end |
| `DaemonSweep.SecondSweepIsIdle` | devitd/src/main.rs:604-798 | a second sweep at the same instant changes nothing |
| `DaemonSweep.PrunedTwice` | devitd/src/main.rs:816-832 | pruning after every insertion leaves what pruning once at the end would |
| `DaemonSweep.PruningKeepsTheMostRecent` | devitd/src/main.rs:816-832 | up to 1000 records all stay; of more exactly 1000, unaltered, none of them less recent than one removed |
| `DaemonSweep.AllExpiredPruned` | devitd/src/main.rs:702-704 | a run of expiries leaves the completed store pruned as a whole |
| `DaemonSweep.AllExpiredMail` | devitd/src/main.rs:726-747 | a run of expiries queues one timeout message per lease, in the order of expiry, to its return target |
| `DaemonSweep.AllExpiredLines` | devitd/src/main.rs:749-761 | and journals one line per lease |
| `DaemonLimits.PollLosesTheRest` | devitd/src/main.rs:2592-2601 | a poll or heartbeat loses all waiting messages of that client but one, and none of anybody else's |
| `DaemonLimits.SweepLosesTheDead` | devitd/src/main.rs:782-795 | a sweep loses, of a client it drops, all that waited and the timeouts it has just queued, and nothing of the others' |
| `DaemonLimits.StepLoses` | devitd/src/main.rs:591-602 | no other section loses anything: the messages lost grow by exactly what the section discards |
| `DaemonLimits.NothingLostExactly` | devitd/src/main.rs:591-602 | over any run nothing of a client's mail is lost exactly when no section of it discards any |
| `DaemonLimits.LostIsNeverNegative` | devitd/src/main.rs:591-602 | a client never gets, or has waiting, more than was queued for it |
| `DaemonLimits.QueueingLosesNothing` | devitd/src/main.rs:591-596 | queueing loses no message |
| `DaemonLimits.FinishedTaskRestarts` | devitd/src/main.rs:2160-2275 | in any section, a completed task becomes active exactly by a NOTIFY for it whose word is neither final nor an acknowledgement, or by a lease for a DELEGATE with its id |
| `DaemonLimits.FreshFinishedTaskRestarts` | devitd/src/main.rs:2477-2512 | with fresh ids exactly by such a NOTIFY |
| `DaemonLimits.RestartedTaskHasNoLease` | devitd/src/main.rs:2477-2512 | the task a late report restarts keeps its notices, gains that one, leaves the completed store and has no lease |
| `DaemonIdle.WorkIsTasksOrApprovals` | devitd/src/main.rs:578-582 | in an agreeing state the lease test of the idle check is never what decides |
| `DaemonIdle.IdleButOwing` | devitd/src/main.rs:1328-1357 | from any state without visible work, some continuation without a new DELEGATE creates a lease exactly when a call in flight owes one: an allowed or approved delegation, or a grant not yet journaled |
| `DaemonIdle.OwesNothingEver` | devitd/src/main.rs:578-582 | without pending approvals and without such calls no continuation without a new DELEGATE ever creates a lease |
| `DaemonIdle.OwedLeaseCanCome` | devitd/src/main.rs:3126-3166 | a call that owes a lease can go on to put it on file, whatever else has happened |
| `DaemonIdle.IdleWithAGrantInFlight` | devitd/src/main.rs:3113-3166 | a run in which the idle check sees neither clients nor work after a grant, and which goes on to the lease |
| `DaemonIdle.IdleWithADelegationInFlight` | devitd/src/main.rs:1840-1877 | such a run after an allowed DELEGATE to a configured worker |
| `DaemonState.State.constructor` | devitd/src/main.rs:518-570 | a new daemon is empty and in agreement |
| `DaemonState.State.AddNotification` | devitd/src/main.rs:591-596 | appends one message to one queue |
| `DaemonState.State.GetNotifications` | devitd/src/main.rs:598-602 | takes the whole queue and removes it |
| `DaemonState.State.PruneCompleted` | devitd/src/main.rs:816-832 | leaves at most 1000 tasks, unaltered, none less recent than one it removed, and removes none it need not |
| `DaemonState.State.RemoveFirst` | devitd/src/main.rs:828-831 | removes exactly the first so many of the listed tasks |
| `DaemonState.State.FinalizeTask` | devitd/src/main.rs:804-814 | files a task by its status: final ones in the pruned completed store, others in the active one |
| `DaemonState.State.TakeTask` | devitd/src/main.rs:2342-2345 | takes the record out of the active store or, failing that, of the completed one |
| `DaemonState.State.UpdateTask` | devitd/src/main.rs:2342-2391 | the record, or a fresh one, gains a notice and is filed again by its new status |
| `DaemonState.State.HandleRegister` | devitd/src/main.rs:1568-1719 | accepts exactly the expected version; a refusal changes nothing |
| `DaemonState.State.HandlePoll` | devitd/src/main.rs:2592-2601 | answers the head of the client's queue, empties the queue, keeps agreement |
| `DaemonState.State.HandleHeartbeat` | devitd/src/main.rs:1721-1735 | the same, and renews the client's last sign of life if it is registered |
| `DaemonState.State.RecordFailure` | devitd/src/main.rs:1786-1818 | policy line, failure messages and a failed record for a refused delegation, as one section; keeps agreement |
| `DaemonState.State.FileFailure` | devitd/src/main.rs:2688-2766 | adds one policy line, one failure message to the return target and one to a different sender, and files the failed record |
| `DaemonState.State.QueueFailures` | devitd/src/main.rs:2768-2808 | queues those failure messages and nothing else |
| `DaemonState.State.RequestApproval` | devitd/src/main.rs:2002-2029 | parks the message under the approval id, tells the approver and journals it |
| `DaemonState.State.HandleDelegate` | devitd/src/main.rs:1737-1968 | refuses, parks or lets pass by the policy; goes on only to a configured worker or a live client |
| `DaemonState.State.ProceedWithDelegation` | devitd/src/main.rs:2038-2127 | lease, active record, optional message to the worker and journal line, all for that task; keeps agreement |
| `DaemonState.State.TakeApproval` | devitd/src/main.rs:3113-3124 | consumes the approval whatever the verdict; only a grant or denial leads on |
| `DaemonState.State.LogGrant` | devitd/src/main.rs:3126-3142 | journals the grant and changes nothing else |
| `DaemonState.State.SettleLease` | devitd/src/main.rs:2279-2282 | settles the live lease or, if there is none, the expired one |
| `DaemonState.State.TakeNotify` | devitd/src/main.rs:2278-2542 | settles the lease, updates the record, tells the return target, journals, and touches nothing else |
| `DaemonState.State.HandleNotify` | devitd/src/main.rs:2160-2551 | an ACK changes nothing here; any other NOTIFY does the above and keeps agreement |
| `DaemonState.State.ExpireLease` | devitd/src/main.rs:616-779 | one turn of the sweep's loop; keeps agreement |
| `DaemonState.State.RetireAndFail` | devitd/src/main.rs:616-779 | moves one lease to the expired ones, fails its task, tells its return target and journals the timeout |
| `DaemonState.State.ExpireOverdue` | devitd/src/main.rs:604-779 | expires exactly the overdue leases, each once, in some order |
| `DaemonState.State.DropDead` | devitd/src/main.rs:782-795 | drops exactly the clients silent for longer than the timeout, with their queues |
| `DaemonState.State.CleanupExpired` | devitd/src/main.rs:604-798 | the whole sweep; keeps agreement |
| `DaemonState.State.BuildSnapshot` | devitd/src/main.rs:834-870 | lists every task of both stores once; completed + failed + cancelled = stored final tasks; the oldest active task is the oldest |
| `DaemonState.State.OldestOf` | devitd/src/main.rs:855-858 | the id of a task created no later than any other |
| `DaemonState.FirstRemoved` | devitd/src/main.rs:828-831 | removing the front of the list sorted by activity prunes the store |
| `DaemonState.SortByActivity` | devitd/src/main.rs:826-826 | the same tasks, the least recently active first |
| `DaemonState.CountStatus` | devitd/src/main.rs:847-854 | how many tasks of the list have the status |
| `DaemonState.SortedOnce` | devitd/src/main.rs:821-826 | sorting the listed tasks lists the same tasks, each once |
| `DaemonState.StatusesAddUp` | devitd/src/main.rs:847-854 | the three counts cover a list of final tasks |
| `DaemonState.SweepOn` | devitd/src/main.rs:616-618 | one more expiry keeps the expired and the remaining leases a partition of the overdue ones |
| `Journal.Journal.Open` | devitd/src/journal.rs:46-57 | starts at number zero and an empty last hash whatever is in the file |
| `Journal.Journal.Append` | devitd/src/journal.rs:60-115 | the file stays what it was when opened followed by what the calls since have written; a failed write costs a number and nothing else |
| `Journal.WrittenIsReplay` | devitd/src/journal.rs:60-115 | when every write succeeds, what a journal has written is what a fresh one writes for those payloads |
| `Journal.VerifyFile` | devitd/src/journal.rs:144-192 | accepts exactly a file that parses throughout and equals what a fresh journal writes for its own payloads; rejects as soon as the readable part is not that, otherwise reports the unreadable line |
| `Journal.IntactStep` | devitd/src/journal.rs:159-188 | a verified log stays one with one more entry exactly when that entry passes the verifier's checks |
| `Journal.IntactPrefix` | devitd/src/journal.rs:150-192 | every prefix of a verified log verifies |
| `Journal.FreshRunsVerify` | devitd/src/journal.rs:60-115 | whatever is appended to an empty file, the file and all its prefixes verify |
| `Journal.BrokenStaysBroken` | devitd/src/journal.rs:161-185 | no addition makes a log that fails verify again |
| `Journal.BlanksDoNotMatter` | devitd/src/journal.rs:155-157 | blank lines are no part of the log |
| `Journal.FailedWritesLeaveGaps` | devitd/src/journal.rs:70-112 | after any mix of successful and failed writes the file verifies exactly when none succeeded after one had failed |
| `Journal.ReopeningRestartsTheChain` | devitd/src/journal.rs:46-57 | what a journal leaves verifies exactly when it was opened over an empty file and no write succeeded after a failed one, or over a file that verified and none succeeded |
| `Journal.HashedDecodes` | devitd/src/journal.rs:76-88 | the hashed text determines previous hash, number, time and every field, among payloads whose event, message id and sender hold no separator, whatever the recipient |
| `Journal.SameEndSameLog` | devitd/src/journal.rs:153-191 | two verified logs ending in the same hash are equal entry by entry and in length, unless two of their hashed inputs collide |
| `Journal.SeparatorsInFieldsAreAmbiguous` | devitd/src/journal.rs:77-80 | wherever a client's field in a log holds a separator there is another log, differing in that entry's client fields only, that verifies under the same key with the same hashes and hashed texts |
| `Journal.ClientSeparatorsDecide` | devitd/src/journal.rs:76-88 | among payloads with the same event the hashed text determines one exactly when no client field of it holds a separator |
| `Journal.SeparatorsDecide` | devitd/src/journal.rs:76-88 | among all payloads exactly when its event holds none either |
| `JsonText.OneObjectAtTheEnd` | devitd/src/journal.rs:83-88 | where the recipient ends and the metadata begins is never in doubt: a text ends in one serialised object at most |
| `JsonText.ObjectsAreObjects` | devitd/src/journal.rs:88-88 | every JSON object, whatever its fields hold, is serialised to a text closed by its last bracket and by none before |
| `Journal.LastEntry` | devitd/src/journal.rs:159-188 | what the verifier has established about the last entry of a verified log and the rest |
| `Journal.DecimalIsInjective` | devitd/src/journal.rs:77-80 | different numbers are written differently |
| `ScreenshotLimiter.ScreenshotControl.constructor` | devitd/src/main.rs:281-305 | a new limiter has granted nothing |
| `ScreenshotLimiter.ScreenshotControl.Prune` | devitd/src/main.rs:351-364 | drops from the front what is older than the window; everything if a limit is zero |
| `ScreenshotLimiter.ScreenshotControl.PrepareJob` | devitd/src/main.rs:307-349 | grants exactly when enabled, with a directory, inside the sandbox and with fewer grants than allowed in the closed window that ends now; of several defects names the first in the order switch, rate, directory, sandbox; the deque then holds exactly the grants that count |
| `ScreenshotLimiter.DecisionsAnswer` | devitd/src/main.rs:307-343 | each answer is given exactly for its defect, and a grant exactly without one |
| `ScreenshotLimiter.GrantsAreTheAllowed` | devitd/src/main.rs:307-343 | over any run with a clock that does not go back, the log holds the times of exactly the requests that should be granted, in their order |
| `ScreenshotLimiter.NoWindowExceedsTheLimit` | devitd/src/main.rs:315-326 | over any run with a clock that does not go back, no closed interval as long as the window holds more grants than allowed |
| `ScreenshotLimiter.RefusalMeansAFullWindow` | devitd/src/main.rs:315-326 | a request is refused for the rate exactly when the window that ends at it is full |
| `ScreenshotLimiter.HoldsLater` | devitd/src/main.rs:351-364 | pruning now leaves a deque that will still find what counting over the full log would at any later time |
| `ScreenshotLimiter.GrantsAreInClockOrder` | devitd/src/main.rs:342-342 | grants are in order and none is later than the last request |
| `IdleShutdown.Run` | devitd/src/main.rs:1328-1357 | fires at the first tick that ends consecutive ticks without clients and work whose first and last are at least the limit apart, and at no other, least of all one with clients or work |
| `IdleShutdown.DueFromTheFirst` | devitd/src/main.rs:1341-1347 | measuring from the first tick of the idle run decides for every later start |
| `IdleShutdown.IdleDaemonStops` | devitd/src/main.rs:1333-1356 | a daemon that stays idle is stopped no later than the limit plus one tick |
| `MergeAssist.FindMarkers` | crates/cli/src/merge_assist.rs:58-70 | finds the first separator and the first end behind an opening marker, and an ordered pair exactly when the hunk is balanced |
| `MergeAssist.Explain` | crates/cli/src/merge_assist.rs:51-84 | lists exactly the hunks of the scan, or rejects the file |
| `MergeAssist.ApplyPlan` | crates/cli/src/merge_assist.rs:138-199 | writes exactly the segments of the scan, or rejects the file |
| `MergeAssist.ExplainHunk` | crates/cli/src/merge_assist.rs:56-81 | one hunk of the listing loop: listed as the scan finds it, or the file rejected |
| `MergeAssist.ApplyHunk` | crates/cli/src/merge_assist.rs:145-190 | one hunk of the resolving loop: the chosen text written, or the file rejected |
| `MergeAssist.ScanIsTheTiling` | crates/cli/src/merge_assist.rs:53-84 | the scan succeeds exactly when context lines and balanced hunks tile the file, and finds the only such tiling |
| `MergeAssist.ExplainIsScan` | crates/cli/src/merge_assist.rs:53-84 | what the listing loop collects is the conflicts of that scan |
| `MergeAssist.ApplyIsScan` | crates/cli/src/merge_assist.rs:143-199 | what the resolving loop writes is the segments of that scan |
| `MergeText.PushAllIsJoin` | crates/cli/src/merge_assist.rs:168-197 | what the output loop writes is the newline-join of the segments without the leading empty ones |
| `MergeText.Lines` | crates/cli/src/merge_assist.rs:52-52 | no line holds a newline, and only the empty text has none |
| `MergeText.LinesShowOpen` | crates/cli/src/merge_assist.rs:52-54 | a text has a marker at a line start exactly when one of its lines starts with it |
| `MergeText.JoinShowsOpen` | crates/cli/src/merge_assist.rs:71-72 | a joined text has such a marker exactly when one of its parts has |
| `MergeText.RewritingLoses` | crates/cli/src/merge_assist.rs:141-197 | taking a text apart and writing its lines gives it back exactly when it is plain |
| `MergeText.JoinIsPlain` | crates/cli/src/merge_assist.rs:71-72 | a joined text is plain exactly when its parts are, each by itself and at the joints |
| `MergeResults.RejectTheSame` | crates/cli/src/merge_assist.rs:67-70 | listing and resolving reject the same files: those that cannot be tiled |
| `MergeResults.OneTilingForBoth` | crates/cli/src/merge_assist.rs:51-84 | one tiling of the file gives the listed hunks and the written segments, with the same numbers, places and sides; the output is the join of the segments without the leading empty ones |
| `MergeResults.HunksAreInOrder` | crates/cli/src/merge_assist.rs:73-80 | hunks lie within the file and strictly one behind the other |
| `MergeResults.ResolvingClears` | crates/cli/src/merge_assist.rs:136-207 | after resolving nothing is listed exactly when no chosen text has a line starting with the opening marker |
| `MergeResults.ResolvingCleanSidesClears` | crates/cli/src/merge_assist.rs:136-207 | if no side has such a line, then for every plan |
| `MergeResults.CleanMeansNoOpen` | crates/cli/src/merge_assist.rs:53-84 | nothing is listed exactly when no line starts with the opening marker |
| `MergeResults.ResolvingCleanText` | crates/cli/src/merge_assist.rs:192-198 | a text without conflicts is left alone exactly when it is plain |
| `MergeResults.ResolvingTwice` | crates/cli/src/merge_assist.rs:136-207 | resolving again, with any plan, changes nothing exactly when no chosen text has a marker line and, among the segments without the leading empty ones, the first does not start with a newline, the last neither is empty nor ends in one, and no carriage return stands before a newline in one or at the end of one but the last |
| `MergeResults.ResolvingLeavesAlone` | crates/cli/src/merge_assist.rs:136-207 | for every text and plan: resolving gives the text back exactly when it has no marker line and is plain |
| `MergeResults.ResolvingShrinks` | crates/cli/src/merge_assist.rs:143-199 | a resolved file with a hunk is shorter than the file was |
| `MergeResults.AppliedIsPlain` | crates/cli/src/merge_assist.rs:168-197 | the output is plain exactly when the segments without the leading empty ones are, each by itself and at the joints |
| `MergeResults.ResolvingIsNotIdempotent` | crates/cli/src/merge_assist.rs:136-207 | a file and plan for which it is not |
| `MergeResults.ProposeAuto` | crates/cli/src/merge_assist.rs:114-134 | a plan for exactly the listed paths, for each the items of the last file with that path |
| `MergeResults.AutoItems` | crates/cli/src/merge_assist.rs:117-130 | one item per hunk: ours exactly where the sides are one core with white space around it, both elsewhere |
| `MergeResults.TrimFindsTheCore` | crates/cli/src/merge_assist.rs:119-120 | trimming takes off all white space in front and behind and nothing else |
| `MergeResults.TrimsAgree` | crates/cli/src/merge_assist.rs:119-121 | trimmed sides are equal exactly if the sides are one core with white space around it |
| `MergeResults.PlanSays` | crates/cli/src/merge_assist.rs:114-134 | for the last file with a path the plan has one item per hunk, `ours` exactly where the sides are one core with white space around it, and `keep_both` elsewhere |
| `MergeResults.DifferingSidesBothAppear` | crates/cli/src/merge_assist.rs:118-130 | under that plan sides that differ in more than surrounding white space both stand whole in the output, ours first |
| `MergeResults.EqualSidesKeepTheText` | crates/cli/src/merge_assist.rs:119-122 | it keeps ours alone exactly where the sides differ in surrounding white space only |
| `MergeResults.FirstItemDecides` | crates/cli/src/merge_assist.rs:163-167 | of several items for a hunk the first decides; without one both sides are kept |
| `MergeResults.PlanIsFollowed` | crates/cli/src/merge_assist.rs:163-188 | for each hunk the chosen text is the side the plan names, or both sides, ours first, for any other word or none |
| `MergeResults.ChosenTextIsWritten` | crates/cli/src/merge_assist.rs:163-188 | whatever non-empty text is chosen for a hunk stands whole in the output |
| `MergeExamples.SampleIsListed` | crates/cli/src/merge_assist.rs:51-84 | a file of seven lines with `<<<<<<<`, `=======` and `>>>>>>>` in their places lists one hunk with its sides, from line 2 to line 5 |
| `MergeExamples.SampleIsResolved` | crates/cli/src/merge_assist.rs:138-199 | and is resolved to the line before, the side the plan names or both with `// --- theirs ---` between them, and the line after |
| `Paths.NormalizePath` | devitd/src/process_utils.rs:84-114 | the daemon's copy resolves lexically |
| `Paths.NormalizeLoop` | crates/common/src/process_utils.rs:169-189 | the common crate's copy does the same |
| `Paths.NormalizedIsPlain` | devitd/src/process_utils.rs:84-114 | the result is `.` or a root and names only, without parent components, absolute exactly when the path is |
| `Paths.NormalizingTwice` | devitd/src/process_utils.rs:84-114 | normalising is idempotent and leaves exactly the normal paths alone |
| `Paths.RelativeMeaning` | devitd/src/process_utils.rs:97-102 | from any place a relative path goes up as often as it climbs, no higher than the root, and then down where it leads on its own |
| `Paths.JoiningMeaning` | devitd/src/process_utils.rs:42-46 | a joined path is the absolute one itself, or the relative one followed from the other |
| `Paths.NormalizingTheFront` | devitd/src/process_utils.rs:45-45 | the root may be normalised before joining |
| `Paths.NormalizingTheRest` | devitd/src/process_utils.rs:97-99 | normalising the joined part first is right exactly when it never climbs or there is nothing to climb out of |
| `PathSandbox.EnforceNoSymlinks` | devitd/src/process_utils.rs:116-186 | reports the first offence along the way to the target, and none exactly if there is none |
| `PathSandbox.CanonicalizeWithinRoot` | devitd/src/process_utils.rs:40-61 | the normalised path, or why it is refused |
| `PathSandbox.DaemonNofollow` | devitd/src/process_utils.rs:64-66 | the daemon's copy resolves against `/` |
| `PathSandbox.CommonNofollow` | crates/common/src/process_utils.rs:101-105 | the common crate's copy takes the path as it is |
| `PathSandbox.AcceptedExactly` | devitd/src/process_utils.rs:40-61 | a path is accepted exactly when it has the root as component prefix, the root is `/` or one component deep, and no place on the way is a symlink outside the allow-list or cannot be examined |
| `PathSandbox.CombinedMeaning` | devitd/src/process_utils.rs:40-50 | an absolute path stands for itself; a relative one climbs from the root as often as it asks, no higher than `/`, and goes down from there |
| `PathSandbox.AllowedAreSystemPlaces` | devitd/src/process_utils.rs:119-141 | the symlinks allowed are those at the system's places directly below `/` and below `usr`, `var` and `dev` |
| `PathSandbox.SymlinksOnTheWay` | devitd/src/process_utils.rs:138-171 | on the way to an accepted path every symlink is one of these, so none is three or more directories deep |
| `PathSandbox.RefusedForTheFirstOffence` | devitd/src/process_utils.rs:116-186 | a refused path leaves the root, or the error names the first place on the way that is a symlink of another kind, outside the root or not to be examined, and what is wrong there |
| `PathSandbox.RootAcceptsTheHarmless` | devitd/src/process_utils.rs:64-66 | for `/` the way alone decides |
| `PathSandbox.DeepRootsRefuseEverything` | devitd/src/process_utils.rs:151-160 | a deeper root, or the current directory, accepts nothing |
| `PathSandbox.CopiesAgreeOnAbsolutePaths` | crates/common/src/process_utils.rs:101-105 | both copies give the same result on absolute paths; the common one refuses every relative path |
| `PathSandbox.CopiesAcceptTheSame` | crates/common/src/process_utils.rs:101-105 | they accept alike exactly for absolute paths and for relative ones whose way from `/` is not harmless |
| `DirectoryWalk.CollectEntries` | crates/mcp-tools/src/directory_list.rs:100-145 | ends for every file system, cyclic links included; one entry per visit in the order of the visits; fails on the first unreadable directory |
| `DirectoryWalk.ReadEntries` | crates/mcp-tools/src/directory_list.rs:115-135 | the children of one directory, and its directories pushed in their order if the bound allows |
| `DirectoryWalk.OneVisit` | crates/mcp-tools/src/directory_list.rs:109-131 | a turn of the loop leads to the same visits and to fewer of them |
| `DirectoryWalk.PushedAll` | crates/mcp-tools/src/directory_list.rs:127-131 | pushed directories are visited before the rest of the stack, the last one first |
| `DirectoryReach.VisitsTheReachable` | crates/mcp-tools/src/directory_list.rs:100-145 | the walk succeeds exactly when every directory within the bound is readable, and visits those and no others; otherwise it names an unreadable one within the bound |
| `DirectoryReach.VisitsOnce` | crates/mcp-tools/src/directory_list.rs:100-145 | no path is visited twice |
| `DirectoryReach.ListingIsExact` | crates/mcp-tools/src/directory_list.rs:100-145 | a successful listing has one entry for each directory path at depth below the bound and no other, and below the root of the listing root and path shown are the path visited |
| `DirectoryReach.SameAsTraversal` | crates/mcp-tools/src/directory_list.rs:109-142 | the same visits, as a multiset, as the plain recursive traversal, and failure for the same trees |
| `DirectoryReach.ChildrenAre` | crates/mcp-tools/src/directory_list.rs:115-135 | the children shown are the directories and, if asked for, everything else |
| `DirectoryReach.ChildrenInOrder` | crates/mcp-tools/src/directory_list.rs:115-135 | in the order of the directory, each under its whole path below the root |
| `DirectoryReach.ShownInFull` | crates/mcp-tools/src/directory_list.rs:121-124 | below the root the path shown is the rest of the path, elsewhere the whole path |
| `ApprovalLevels.SatisfiesIsReflexive` | crates/common/src/lib.rs:226-248 | every level satisfies itself |
| `ApprovalLevels.SatisfiesIsTransitive` | crates/common/src/lib.rs:226-248 | satisfying is transitive over all levels |
| `ApprovalLevels.LadderIsOrdered` | crates/common/src/lib.rs:215-246 | untrusted, ask, moderate and trusted satisfy one another in exactly that order; a privileged level satisfies them all and is satisfied by none of them |
| `ApprovalLevels.PrivilegedSatisfiesIsCovers` | crates/common/src/lib.rs:228-240 | between privileged levels satisfying is exactly inclusion of accessible paths |
| `ApprovalLevels.SatisfiesCoversExactly` | crates/common/src/lib.rs:242-246 | in general a satisfying level covers the other's paths exactly unless it is privileged, the other is not, and the empty path is not allowed |

## Left out

- Sockets, named pipes, signal handling, hook subprocesses, ACK sockets and marker files, screenshot capture: I/O. An ACK is a step that leaves leases and tasks alone.
- Signing of messages: it is taken to succeed; the branches for a failed signature are not modelled.
- JSON payloads, summaries, and a task's goal, context, working directory, model and response format: they are carried along and decide nothing here.
- Ids of clients, tasks, messages and approvals are numbers; approval ids and calls are fresh, as UUIDs are taken to be.
- `devitd/src/policy.rs`: the policy is an arbitrary function from messages to Allow, Deny or NeedApproval.
- Each section reads its clocks once; the source reads the clock separately for each client of a sweep.
- `devitd/src/reaper.rs`, the process registries, `devitd/src/worker_executor.rs`: a spawned worker's report is a NOTIFY like any other.
- `verify_pgid_leader`, `process_exists` and the rest of the two process utility files: calls into `/proc`.
- The tool wrappers, servers, Studio UI, scripts and the patch pipeline of `crates/cli/src/main.rs`.
- Journal.Journal.Append: a failed write leaves the file as it was; a write that fails half-way, or a failed sync after a complete write, is not modelled, nor the end of the 64-bit sequence numbers.
- Journal.VerifyFile: lines are given parsed or as not parsing; reading and parsing them is not modelled.
- Journal.SameEndSameLog: metadata is its serialised text, and a serialised object, as all the daemon journals is; event, message id and sender hold no separator in either log.
- JsonText.ObjectsAreObjects: numbers, truth values and null are any text without quotes, backslashes and brackets.
- DaemonConservation.LeasesAreConserved: needs fresh ids (a DELEGATE id is never reused, a NOTIFY names a task already leased or recorded), because the daemon accepts any ids and a reused one overwrites a lease; what holds for any ids is `DaemonLedger.BooksBalanceExactly`.
- DaemonState.State.PruneCompleted: which of several tasks of equal age is removed depends on the hash map's order and is left open.
- DaemonState.State.TakeNotify: the live and the late branch of the source differ only in payload details and are one method.
- The text of a status word that is none of the known ones, and of a verdict that is neither a grant nor a denial: the daemon only passes it on.
- MergeAssist.FindMarkers: both loops of the source contain this search; it is written once here and called from both, and the hunk branch of each loop is a method of its own.
- MergeAssist.ApplyPlan: works on the text of one file; reading, the backup copy and writing are left out, and so is the order of the files of a plan.
- MergeAssist.Explain: works on the text of one file; asking git for unmerged paths and dropping files without hunks are left out.
- `propose_minimal` (keep both everywhere) and `detect_merge_state`: one is a constant plan, the other a file test.
- PathSandbox.EnforceNoSymlinks: the two copies are the same and modelled once; Windows prefixes and names that are not valid Unicode are left out.
- Paths.NormalizePath: a path is given as its components; splitting a string into them is the standard library's.
- The argument checks in front of the directory listing (a depth of zero, a path that is no directory).
- DirectoryWalk.CollectEntries: the file system does not change during the walk, and an error on a single entry counts as the directory being unreadable.
- ScreenshotLimiter.ScreenshotControl.PrepareJob: the file name and the allow-list test are a parameter of the request.
- IdleShutdown.Run: works on the samples the ticks produce; the ticker and the shutdown itself are left out.
