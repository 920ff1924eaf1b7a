# legacy-point-monitor in Dafny

A verification model of the repository's two libraries and of its `install_data` program: the
open-addressing hash table, the linked list, the shared-memory bookkeeping with its semaphore, the
thread manager, and the task replay with its restart on SIGHUP.

`dafny verify dfyconfig.toml` checks the whole project.

## How it is built

Code that changes things in place is modelled in place: `HashTable.Hash` works on an array of node
pointers, `LinkedList.List` on nodes with `next` fields, `ShmLibrary.ShmLib` on a hash table of
segment nodes that own lists, `ThreadMgr.ThreadTable` on the array of record pointers,
`SignalTable.SignalHandlers` on a hash table, `TaskReplay.SharedSegment` on the array of points.
Each method is proved to do to the heap what a function does to its value (`Insert`, `Push`,
`Connect`, ...), and what the source promises is proved about those functions and about all runs of
them.

Concurrency is a transition system over values: `ThreadModel` (one step per locked section of
`thread_mgr.c`, and one per look through `Threads[th]` of a `th_kill` and of an exiting worker's
`show_thread`, which a cleanup can overtake), `LockDiscipline` (one step per lock operation),
`Semaphore` (one step per kernel operation), `InstallData` (main, workers and signal callbacks over
`ThreadModel`) and `InstallRun` (the same program with every word stored in the segment). A run is a
sequence of steps; the theorems quantify over all of them, so over every interleaving. Where the
code goes wrong in some of them, a theorem says exactly which: `Runs.LeadsIff` shows once, for any
step function, that a run leads to something bad (after some of its steps, steps of the rest of the
system come to it) if and only if one of its steps "cuts", given that nothing bad happens while no
step cuts and that after a cut the rest of the system can come to it by itself.

| file | what it models |
|---|---|
| HashTable.dfy | `src/lib/store/hash_table.c` |
| LinkedList.dfy | `src/lib/store/list.c` |
| SharedMemory.dfy, ShmLibrary.dfy | `src/lib/shmlib/shared_mem.c`, as values and on the heap |
| Semaphore.dfy | the semaphore of `src/lib/shmlib/shared_mem.c` |
| Runs.dfy | runs of a transition system, and which of them lead to something bad |
| ThreadModel.dfy | the interleavings of `src/lib/thread_mgr/thread_mgr.c` |
| KillModel.dfy, KillRaces.dfy | one `th_kill` from its check to its release; `th_kill` and the last `show_thread` against cleanups |
| KillLocks.dfy | a record's lock: whom it keeps out, who has it when; how workers end |
| ThreadMgr.dfy | the sequential calls of `src/lib/thread_mgr/thread_mgr.c` |
| LockDiscipline.dfy | the locking of `src/lib/thread_mgr/thread_mgr.c` |
| SignalTable.dfy | the signal callbacks of `src/lib/thread_mgr/thread_mgr.c` |
| TaskReplay.dfy | the task list of `src/bin/install_data/install_data.c` and `src/lib/store/point.c` |
| InstallData.dfy, InstallRaces.dfy, InstallRun.dfy | the program `install_data`, when it faults, and what it installs |
| InstallRestart.dfy, InstallHangs.dfy | when `install_data` restarts its worker, and when it comes out of a round of its loop at all |

What the model takes from outside: the answers of `shmget`, `shmat`, `shmdt`, `shmctl` and `semget`
are arguments; `malloc` and `pthread_create` succeed; signals arrive, threads are scheduled and a
condition wait returns at any time. Clients of the thread manager serialise their calls of
`th_execute` (its search and its publish are two locked sections) and have at most one waiter per
handle, never the worker itself; these rules are the places where a step of `ThreadModel` is blocked.

## Where the code falls short, and exactly when

- The probe loops of the hash table end if and only if some cell is empty or holds the key
  (`HashTable.ProbeEndsIff`); a lookup of an absent key in a full table does not.
- Deleting from the hash table loses exactly the keys whose path crosses the freed cell
  (`HashTable.DeleteExact`), and re-inserting one stores it twice (`HashTable.DeleteCanLoseAndDuplicate`).
- Removing from the list leaves `tail` right exactly when the last node was removed; after the first
  of several is removed the next push dereferences NULL (`LinkedList.RemoveTail`). A run stays
  faithful exactly when every push finds `tail` last (`LinkedList.RunFaithfulIff`).
- `shared_mem.h` promises that `destroy_shm` detaches all attachments; those whose `shmdt` fails stay
  attached and are forgotten (`SharedMemory.DestroyExact`). So is the address of a connect whose
  `semget` fails, and those after a stale `tail`: a run ends with exact books if and only if none of
  this happens in it (`SharedMemory.RunAgrees`), and what is forgotten once is never listed or given
  back again (`SharedMemory.RunKeepsUnlisted`). An address attached under key -1 is never given back,
  whatever is called (`SharedMemory.KeyMinusOneNeverDetaches`). A detach or destroy before the first
  connect goes through the NULL table (`SharedMemory.MadeByConnect`).
- `shared_mem.h` presents the semaphore as a lock; each process's first connect adds one to it. It
  excludes if and only if the live processes have first-connected at most once
  (`Semaphore.TwoHoldIff`); what always holds is the conservation law, and that if and only if every
  process that exits leaves the rest covered (`Semaphore.RunConservesIff`).
- `th_kill` and the last `show_thread` of an exiting worker look through their slot again and again
  with only the record's lock, and `th_wait`'s cleanup empties the slot with only StoreLock. A run
  leads to a NULL dereference there if and only if a cleanup falls inside such a call of its handle
  (`KillRaces.FaultIff`; a `th_kill` that waits for a lock whose owner was cancelled in its
  `show_thread` never goes on, and does not count).
- If the slot is refilled instead, the kill's write lands on the new record, and even a FINISHED one
  becomes CANCELLED. A run leads to that if and only if a cleanup falls inside a `th_kill` of its
  handle between its taking of the lock and its write, or while it waits for a lock it can still get
  (`KillRaces.UndoneIff`). `th_wait` shows the record after its join, and waits for the record's lock
  to do so, so the kill must take the lock after that: the worker is killed while PENDING, its late
  start hides that, the cancellation ends it and the waiter shows it, and then a second kill passes
  its tests (`KillRaces.OvertakenReachable`). In all other runs the state machine and the bound on
  kills hold (`KillRaces.RunMoves`, `KillRaces.KillsBounded`).
- `thread_mgr.h` says a kill updates the status: a late start overwrites CANCELLED with RUNNING
  (`KillModel.LateStartHidesKill`); and that a wait blocks until the thread terminates: it can end
  before that if and only if it finds the thread FINISHED but still on its way out
  (`ThreadModel.WaitEndsEarlyIff`).
- `install_data` faults, in exactly the runs in which main cleans up the handle under the manager's
  `th_kill` or the worker's last `show_thread`, or calls `destroy_shm` while `clear_and_restart` has
  been looked up and has not finished its memset (`InstallRaces.FaultIff`, and word by word
  `InstallRun.FaultIff`). All three happen: on a SIGINT (`InstallRaces.GracefulExitCanFault`), without
  any signal (`InstallRaces.LastShowCanFault`) and on a SIGHUP (`InstallRaces.ClearCanOutliveDestroy`);
  the last if and only if, when SIGHUP has been uninstalled, the manager has looked its callback up
  and the memset is not over, or has not begun (`InstallRaces.ClearFaultsIff`).
- Apart from these, `graceful_exit`, which stays installed, and a late `clear_and_restart` may signal
  `TaskingCompleted` (`install_data.c:189` and `:206`) after main has destroyed it (`:329`). That is
  undefined in POSIX and is not a `Fault` here: what is proved of these runs says nothing of it.
- `install_data` can hang at its ordinary end. Its worker wakes main before it returns; if main's
  `th_kill_all` still finds it RUNNING, the worker sets FINISHED, takes its record's lock in its last
  `show_thread`, and the log write there is a cancellation point: it dies with the lock, for which
  main's `th_wait_all` waits for ever (`InstallHangs.NormalEndCanHang`). In every run in which main
  makes none of the faulty steps above, it can come out of a round if and only if that lock does not
  belong to a worker cancelled in its last `show_thread` (`InstallHangs.RoundEndsIff`); every other
  thread it joins has been asked to cancel (`InstallHangs.JoinedIsAsked`).
- Main replays the list once more if and only if `clear_and_restart` has begun in the round
  (`InstallRestart.RestartIff`); a hangup whose callback begins after main's test is not served.
- A SIGHUP should make the program clear the segment and replay the list. As the condition wait has
  no predicate, the restarted worker can run while the clear is under way
  (`InstallRaces.RestartCanPrecedeClear`). A finished worker leaves the full replay if and only if each
  word zeroed since its start was stored again by it later or is zero in the replay
  (`InstallRun.FinishedWorkerInstalledIff`); some run ends on another segment if and only if the
  replay leaves anything but a cleared segment (`InstallRun.RestartSpoilsIff`).

## Model

| member | source | states |
|---|---|---|
| HashTable.ProbeFrom | src/lib/store/hash_table.c:31-38 | the probe stops at the first cell, cyclically from home, that is empty or holds the key, and at none exactly when a whole turn has no such cell |
| HashTable.HomeIsRemainder | src/lib/store/hash_table.c:24-26 | the home cell is the key's remainder by the size, a negative key read as 32 bits without sign |
| HashTable.ProbeEndsIff | src/lib/store/hash_table.c:28-41 | the loop over the source's own index sequence ends iff some cell is empty or holds the key |
| HashTable.FoundIff | src/lib/store/hash_table.c:28-41 | a stored key is found, and at its own cell, iff no cell between its home and it is empty |
| HashTable.LookupRefinesMap | src/lib/store/hash_table.c:28-41 | with unique keys and unbroken paths, get's loop ends iff the key is stored or a cell is empty, and then returns exactly the map's entry, for every 32-bit key |
| HashTable.InsertRefinesMap | src/lib/store/hash_table.c:43-60 | an insert whose loop ends is map update and keeps the invariant |
| HashTable.DeleteExact | src/lib/store/hash_table.c:62-77 | the deleted key is absent; another stored key is still found iff the freed cell is not on its path |
| HashTable.DeleteKeepsWellFormedIff | src/lib/store/hash_table.c:62-77 | a delete empties one cell, and keeps all survivors reachable iff that cell is on no survivor's path |
| HashTable.DeleteRefinesMap | src/lib/store/hash_table.c:62-77 | the stored entries lose exactly the deleted key |
| HashTable.DeleteAbsent | src/lib/store/hash_table.c:62-77 | deleting a key that is not found leaves the table as it is, and else one cell that held it is emptied |
| HashTable.DeleteCanLoseAndDuplicate | src/lib/store/hash_table.c:62-77 | a four-cell table on which a delete hides a stored key and a re-insert stores it twice |
| HashTable.OccupiedIsContents | src/lib/store/hash_table.c:79-87 | what iteration hands out is exactly the map's entries, each once |
| HashTable.OccupiedInOrder | src/lib/store/hash_table.c:79-87 | iteration hands out the nodes of all occupied cells in increasing order of index |
| HashTable.Hash.constructor | src/lib/store/hash_table.c:13-21 | a new table has the given size and no node |
| HashTable.Hash.Get | src/lib/store/hash_table.c:28-41 | the loop on the array returns what Lookup says |
| HashTable.Hash.Put | src/lib/store/hash_table.c:43-60 | the array becomes what Insert says |
| HashTable.Hash.Remove | src/lib/store/hash_table.c:62-77 | the array becomes what Delete says, true iff the key was found |
| HashTable.Hash.Iterate | src/lib/store/hash_table.c:79-87 | the processor sees the occupied cells in index order |
| LinkedList.RemoveTail | src/lib/store/list.c:39-66 | a removal takes out the first match, always shows in traversal and size, leaves tail right iff the removed node was last, and makes the next push fault iff the first of several was removed |
| LinkedList.PushAppendsIff | src/lib/store/list.c:19-37 | a push appends iff tail is last, and otherwise makes size too large |
| LinkedList.PushKeepsToTail | src/lib/store/list.c:29-36 | a push keeps the items up to tail, in order, and puts the new one after them |
| LinkedList.PushAfterRemove | src/lib/store/list.c:29-60 | a push after a removal puts the new item where the removed one was and loses those after it, and faults iff the first of several was removed |
| LinkedList.LossIsPermanent | src/lib/store/list.c:19-66 | the excess of size over length never shrinks in any run |
| LinkedList.RunFaithfulIff | src/lib/store/list.c:19-66 | a run neither faults nor loses a node iff every push finds tail last, and then it agrees with the run on a sequence |
| LinkedList.WalkOverAll | src/lib/shmlib/shared_mem.c:358-367 | removing on the way through a list of distinct items leaves in order exactly the others, the right size, and tail last iff nothing or the last item was removed |
| LinkedList.List.constructor | src/lib/store/list.c:11-17 | a new list is empty with NULL ends |
| LinkedList.List.PushItem | src/lib/store/list.c:19-37 | the pointer structure becomes what Push says, by a node of its own |
| LinkedList.List.RemoveItem | src/lib/store/list.c:39-66 | the pointer structure becomes what Remove says, one node leaving the chain |
| LinkedList.List.Iterate | src/lib/store/list.c:68-74 | the processor sees the items in order |
| SharedMemory.FindKeyExact | src/lib/shmlib/shared_mem.c:227-250 | the key found for an address is the one key that lists it, and -1 iff none does |
| SharedMemory.ConnectKeeps | src/lib/shmlib/shared_mem.c:133-223 | a connect keeps listed within attached, whatever the kernel answers, and keeps them equal iff semget succeeds where it is asked and the list's tail is last |
| SharedMemory.ConnectReturns | src/lib/shmlib/shared_mem.c:133-223 | for every key the result is NULL iff the kernel refuses or a first connect gets no semaphore, and else the newly attached address, which is listed last under the key; a first connect records id and size, a later one keeps them |
| SharedMemory.DetachExact | src/lib/shmlib/shared_mem.c:300-339 | a detach takes the address from its own list and from the kernel and changes nothing else |
| SharedMemory.DetachKeeps | src/lib/shmlib/shared_mem.c:300-339 | a detach keeps the bookkeeping sound and exact, and returns OK iff the address is listed and shmdt succeeds; a failed one changes nothing |
| SharedMemory.WalkExact | src/lib/shmlib/shared_mem.c:358-367 | the destroy walk, whose callee unlinks what it visits, removes in order exactly the addresses whose shmdt succeeds |
| SharedMemory.WalkSurvivors | src/lib/shmlib/shared_mem.c:358-367 | from a sound table, whatever other keys have lost, its survivors are exactly the failed addresses, in order, with size and tail as stated for WalkOverAll |
| SharedMemory.DestroyExact | src/lib/shmlib/shared_mem.c:342-395 | return value and remaining attachments of a destroy; sound afterwards iff no other key's path is cut, exact iff moreover no shmdt failed, or the removal was refused |
| SharedMemory.DestroyFails | src/lib/shmlib/shared_mem.c:350-393 | a destroy of an unknown key fails and changes nothing; one that shmctl refuses fails having only detached |
| SharedMemory.RunAgrees | src/lib/shmlib/shared_mem.c:133-395 | over every run keeping the rules, listed addresses are attached, once, under their key; and after it listed equals attached and sizes are lengths iff every call of it kept the exact rules |
| SharedMemory.RunKeepsUnlisted | src/lib/shmlib/shared_mem.c:227-250 | over every run an attached address that no key is found for stays attached under its key and is never listed again |
| SharedMemory.StartAgrees | src/lib/shmlib/shared_mem.c:140-147 | the empty table agrees with a kernel that has nothing attached |
| SharedMemory.MadeByConnect | src/lib/shmlib/shared_mem.c:140-147 | the table exists iff some connect has been called, so no defined run begins with a detach or a destroy |
| SharedMemory.ConnectDetachRoundTrip | src/lib/shmlib/shared_mem.c:175-339 | connect then detach restores the segment's list with size and tail, every other segment and the kernel, and keeps the key findable |
| SharedMemory.KeyMinusOneNeverDetaches | src/lib/shmlib/shared_mem.c:305-312 | over every run of further calls an address connected under key -1 stays attached and no detach of it succeeds |
| SharedMemory.StaleTailLosesAddresses | src/lib/shmlib/shared_mem.c:214-222 | from a stale tail the round trip loses addresses |
| ShmLibrary.ShmLib.ConnectShm | src/lib/shmlib/shared_mem.c:133-223 | on the heap, connect_shm changes table, lists and kernel as Connect says and returns its result |
| ShmLibrary.ShmLib.FindKeyForAddress | src/lib/shmlib/shared_mem.c:227-250 | the nested scan returns what FindKey says |
| ShmLibrary.ShmLib.DetachShm | src/lib/shmlib/shared_mem.c:300-339 | on the heap, detach_shm does what Detach says |
| ShmLibrary.ShmLib.DetachAll | src/lib/shmlib/shared_mem.c:358-367 | the loop with the saved next pointer tries each original attachment once, in order, terminates, and does what Walk says |
| ShmLibrary.ShmLib.DestroyShm | src/lib/shmlib/shared_mem.c:342-395 | on the heap, destroy_shm does what Destroy says and returns its result |
| Semaphore.StepConservesIff | src/lib/shmlib/shared_mem.c:50-54 | value plus holders stays the first connects of live processes at every step; at a process exit, iff the rest hold no more than they connected |
| Semaphore.ConnectCounts | src/lib/shmlib/shared_mem.c:194-198 | a first connect adds one to that process and the value, and lets it lock |
| Semaphore.LockTakes | src/lib/shmlib/shared_mem.c:50-54 | a lock is to be had iff the process is connected and the value positive, and then makes one holder more |
| Semaphore.UnlockReleases | src/lib/shmlib/shared_mem.c:82-86 | an unlock needs a hold and makes one holder less, of that process alone |
| Semaphore.LockUnlockRoundTrip | src/lib/shmlib/shared_mem.c:36-95 | an unlock after a lock gives back the state |
| Semaphore.RemoveUnblocks | src/lib/shmlib/shared_mem.c:252-295 | once the semaphore is removed no lock, unlock or connect blocks or changes anything |
| Semaphore.ExitUndoes | src/lib/shmlib/shared_mem.c:50-54 | with SEM_UNDO the exit of a process takes its connects off the value and gives its holds back, cut off at zero, and changes no other process |
| Semaphore.RunConservesIff | src/lib/shmlib/shared_mem.c:175-200 | the conservation law holds throughout a run, undo at exit included and while the semaphore is not removed, iff every exit leaves the rest covered |
| Semaphore.HoldingOnceIsCovered | src/lib/shmlib/shared_mem.c:36-64 | in runs of processes that hold the lock at most once every exit does |
| Semaphore.ExitCanBreakConservation | src/lib/shmlib/shared_mem.c:194-198 | a run outside the rule on which an exit breaks the law |
| Semaphore.HoldersWithinConnects | src/lib/shmlib/shared_mem.c:36-95 | in every reachable state holders are at most the live first connects, and the lock is to be had iff there are fewer |
| Semaphore.TwoHoldIff | src/lib/shmlib/shared_mem.c:36-95 | from any reachable state locks and unlocks lead to two holds at once iff the live processes have first-connected twice or more |
| Semaphore.OneConnectExcludes | src/lib/shmlib/shared_mem.c:36-95 | with one first connect at most one lock is held, and while it is nobody gets it |
| Semaphore.UnlockFreesLock | src/lib/shmlib/shared_mem.c:66-95 | with one first connect, after the unlock of the one holder somebody gets the lock again |
| Semaphore.TwoProcessesBothHold | src/lib/shmlib/shared_mem.c:194-198 | any two connected processes can hold a free semaphore at once |
| ThreadModel.LowestFree | src/lib/thread_mgr/thread_mgr.c:259-272 | the search returns the lowest free slot |
| ThreadModel.StepKeepsInv | src/lib/thread_mgr/thread_mgr.c:300-561 | every step, cleanups inside other calls included, keeps the invariant, and th_exit never meets a missing record |
| ThreadModel.RunKeepsInv | src/lib/thread_mgr/thread_mgr.c:300-561 | the same over every run, in every interleaving; one that faults does so in a th_kill or a last show_thread |
| ThreadModel.SlotOwnership | src/lib/thread_mgr/thread_mgr.c:300-356 | in every run, from publish until its worker sets FINISHED or terminates, the slot of a handle holds that worker's own record, and th_exit marks that record and faults never |
| ThreadModel.ExitIsOwn | src/lib/thread_mgr/thread_mgr.c:542-551 | the state update of th_exit through Threads[th] reaches the worker's own record, and waits only for a th_kill that has its lock |
| ThreadModel.WaitEndsEarlyIff | src/lib/thread_mgr/thread_mgr.c:415-454 | a wait can end before its thread has terminated iff it finds the thread FINISHED and still on its way out |
| KillRaces.StepKeepsSteady | src/lib/thread_mgr/thread_mgr.c:284-561 | a step that is not a cleanup inside a th_kill or last show_thread of its handle dereferences no NULL and keeps each kill on the record it locked |
| KillRaces.RunKeepsSteady | src/lib/thread_mgr/thread_mgr.c:284-561 | the same over every run without such a cleanup |
| KillRaces.FaultIff | src/lib/thread_mgr/thread_mgr.c:490-512 | a run leads to a NULL dereference in th_kill or th_exit's show_thread iff some cleanup of it falls inside such a call of its handle |
| KillRaces.StepMoves | src/lib/thread_mgr/thread_mgr.c:322-551 | a record starts PENDING and makes only the state machine's moves, back to RUNNING only at the late start |
| KillRaces.RunMoves | src/lib/thread_mgr/thread_mgr.c:322-551 | over every run in which no cleanup overtakes a deciding kill no record returns to PENDING and FINISHED is absorbing |
| ThreadModel.FinishedByExit | src/lib/thread_mgr/thread_mgr.c:549-551 | in every run a record becomes FINISHED only by its own worker's exit, and no step revives a worker |
| KillRaces.KillsBounded | src/lib/thread_mgr/thread_mgr.c:490-512 | over every such run th_kill succeeds at most twice on a record, and at most once after its start |
| KillModel.LateStartHidesKill | src/lib/thread_mgr/thread_mgr.c:322 | from every PENDING record a run with two successful kills that ends FINISHED |
| KillModel.KillStartSerialise | src/lib/thread_mgr/thread_mgr.c:491-511 | a start anywhere between the steps of th_kill gives the outcome of one of the two whole orders |
| KillModel.KillAlone | src/lib/thread_mgr/thread_mgr.c:491-511 | a th_kill whose record's lock is free or its own, and that goes on alone, returns, releases its lock, and has marked its record CANCELLED and cancelled its thread iff the record was PENDING or RUNNING |
| KillModel.KillSeen | src/lib/thread_mgr/thread_mgr.c:490-512 | a whole kill succeeds iff the slot is PENDING or RUNNING and changes only that slot, to CANCELLED |
| KillRaces.UndoneIff | src/lib/thread_mgr/thread_mgr.c:491-507 | a run leads to a FINISHED record turned CANCELLED iff some cleanup of it falls inside a th_kill of its handle that is between its lock and its write, or can still take the lock of the record cleaned up |
| KillRaces.OvertakenReachable | src/lib/thread_mgr/thread_mgr.c:415-507 | a run under the client rules, in which th_wait has shown the record after its join, to a state in which the next step can be such a cleanup |
| KillLocks.LockExcludes | src/lib/thread_mgr/thread_mgr.c:284-551 | while a record's lock is held, the exit of its worker, both sections of a wait, another th_kill and another last show_thread are blocked |
| KillLocks.LockChanges | src/lib/thread_mgr/thread_mgr.c:284-512 | a lock is taken only when free, and given back only by its owner |
| KillLocks.OwnersAreHolders | src/lib/thread_mgr/thread_mgr.c:284-512 | in every run in which no cleanup falls inside another call, a th_kill owns the lock of the record in its slot iff it is between its acquisition and its release, and a last show_thread likewise, unless it was cancelled there |
| KillLocks.LockedStateStays | src/lib/thread_mgr/thread_mgr.c:322-551 | while the lock is held only its owner changes the state, but for the late start |
| KillLocks.TakenAfterShow | src/lib/thread_mgr/thread_mgr.c:427-454 | a th_kill that is deciding when the cleanup comes has taken its lock after th_wait showed the record |
| KillLocks.AskedByKill | src/lib/thread_mgr/thread_mgr.c:505 | only a th_kill that finds the record in its slot asks its thread to cancel |
| KillLocks.CancelledMeansAsked | src/lib/thread_mgr/thread_mgr.c:505-507 | over every run in which no cleanup overtakes a deciding kill, the thread of a CANCELLED record has been asked to cancel |
| KillLocks.WorkerEndsBy | src/lib/thread_mgr/thread_mgr.c:322-556 | over every run a worker stops running its function only by its own exit or because a th_kill has cancelled it |
| KillLocks.WorkerRunsOut | src/lib/thread_mgr/thread_mgr.c:540-562 | left alone, a worker that is not killed comes to FINISHED, with its pthread gone and its lock free |
| ThreadModel.HandlesConserved | src/lib/thread_mgr/thread_mgr.c:361-459 | over every run filled slots are executes less waits, at most 50 |
| ThreadModel.HandlesDistinct | src/lib/thread_mgr/thread_mgr.c:393-405 | live handles have distinct records that carry their own number |
| ThreadModel.SameRecordIff | src/lib/thread_mgr/thread_mgr.c:345-356 | two looks through a slot find the same record iff no cleanup of the handle has come in between |
| ThreadModel.NewHandleIsLowestFree | src/lib/thread_mgr/thread_mgr.c:259-272 | a new handle is the lowest slot free at its search, still free when the record is published there |
| ThreadModel.SearchFailsIff | src/lib/thread_mgr/thread_mgr.c:259-272 | th_execute finds no handle iff every slot is filled, and then changes nothing |
| ThreadModel.WaitAgain | src/lib/thread_mgr/thread_mgr.c:415-454 | a handle whose waiter was cancelled can be waited for anew, and not before |
| ThreadModel.ReplacedByLater | src/lib/thread_mgr/thread_mgr.c:284-297 | a second look at a slot meets the same record or a later one |
| ThreadMgr.ThreadTable.GetNextHandle | src/lib/thread_mgr/thread_mgr.c:259-272 | the scan returns the lowest free slot, THD_ERROR iff there is none |
| ThreadMgr.ThreadTable.ThExecute | src/lib/thread_mgr/thread_mgr.c:361-413 | the lowest free slot becomes PENDING and is returned; with none, nothing changes |
| ThreadMgr.ThreadTable.ThKill | src/lib/thread_mgr/thread_mgr.c:481-517 | OK iff the slot is PENDING or RUNNING, which becomes CANCELLED |
| ThreadMgr.ThreadTable.ThKillAll | src/lib/thread_mgr/thread_mgr.c:519-537 | the 32-bit and-fold is OK iff some slot was PENDING or RUNNING; none is afterwards, FINISHED ones are kept |
| ThreadMgr.ThreadTable.ThWait | src/lib/thread_mgr/thread_mgr.c:415-459 | OK iff the slot was filled, and it alone is emptied, whatever workers do during the join |
| ThreadMgr.ThreadTable.ThWaitAll | src/lib/thread_mgr/thread_mgr.c:461-479 | the and-fold is OK iff some slot was filled; every slot is emptied |
| LockDiscipline.ScriptTidy | src/lib/thread_mgr/thread_mgr.c:111-551 | every library call nests locks StoreLock first and one record at a time, joins with none taken, and ends with none taken |
| LockDiscipline.KillKeepsLock | src/lib/thread_mgr/thread_mgr.c:490-511 | past its check, th_kill takes the record's lock before all else and keeps it to its end |
| LockDiscipline.SectionsFirst | src/lib/thread_mgr/thread_mgr.c:549-554 | th_exit updates its record with its lock and shows it after that; get_thread_state reads it with its lock |
| LockDiscipline.WaitOrder | src/lib/thread_mgr/thread_mgr.c:415-454 | th_wait reads with the lock, joins with none, shows after that, and empties the slot last, with StoreLock |
| LockDiscipline.StoreSections | src/lib/thread_mgr/thread_mgr.c:259-405 | th_execute searches and publishes, and func_decorator shows, with StoreLock |
| LockDiscipline.ShowAllOrder | src/lib/thread_mgr/thread_mgr.c:110-125 | show_all_threads shows every slot in one section with StoreLock |
| LockDiscipline.GuardReturns | src/lib/thread_mgr/thread_mgr.c:416-490 | a call with a NULL check returns at once from an empty slot, and goes on otherwise |
| LockDiscipline.ShowTakesLock | src/lib/thread_mgr/thread_mgr.c:284-297 | show_thread of a filled slot takes the record's lock and gives it back |
| LockDiscipline.DeadKeepsLocks | src/lib/thread_mgr/thread_mgr.c:284-297 | a thread that dies in a call keeps the locks it has and does nothing more |
| LockDiscipline.LoneCallReturns | src/lib/thread_mgr/thread_mgr.c:259-556 | every library call by a live thread returns if no other thread has a lock meanwhile; th_exit, if its slot is filled |
| LockDiscipline.TablesOfThreadModel | src/lib/thread_mgr/thread_mgr.c:345-405 | the table changes in ThreadModel as in the lock model: by a new record in an empty slot, or by emptying one |
| LockDiscipline.NestingAndJoins | src/lib/thread_mgr/thread_mgr.c:111-551 | in every reachable state a thread that takes StoreLock, is at a join or is outside the library holds the lock of no record still there, and one that takes a record's lock holds no other such |
| LockDiscipline.StoreLockIsOuter | src/lib/thread_mgr/thread_mgr.c:111-551 | the owner of StoreLock is in a call that neither joins nor takes it again |
| LockDiscipline.NoWaitCycle | src/lib/thread_mgr/thread_mgr.c:284-551 | in every reachable state there is no wait-for cycle among lock waiters, dead owners and locks left behind by overtaken calls included |
| LockDiscipline.SomeOwnerAdvances | src/lib/thread_mgr/thread_mgr.c:284-551 | without dead owners and locks left behind, whenever a thread is blocked on a lock some owner of a lock can go on |
| LockDiscipline.RunKeepsInv | src/lib/thread_mgr/thread_mgr.c:111-551 | over every run each lock has at most one owner, and what a thread holds of records still there is what it has taken in its slot |
| SignalTable.ProbeStopsAtHome | src/lib/thread_mgr/thread_mgr.c:153-160 | in a table of signals every probe stops at the home cell, full table or not, and lookups equal the map |
| SignalTable.RunIsMap | src/lib/thread_mgr/thread_mgr.c:597-670 | over every sequence of installs and uninstalls the table is exactly the map of callbacks |
| SignalTable.InstallTakes | src/lib/thread_mgr/thread_mgr.c:597-641 | an install is taken for 1 to 15 without 9, after which the manager finds the callback; for all others it is refused and changes nothing |
| SignalTable.UninstallForgets | src/lib/thread_mgr/thread_mgr.c:643-670 | an uninstall is taken for 1 to 15 once the table exists, and forgets that signal and no other |
| SignalTable.LookupAfterRun | src/lib/thread_mgr/thread_mgr.c:153-160 | after any sequence, the lookup of a signal returns exactly its callback |
| SignalTable.SignalHandlers.InstallHandler | src/lib/thread_mgr/thread_mgr.c:597-641 | the array of the hash becomes what Install says, refusing SIGKILL and signals outside 1 to 15 |
| SignalTable.SignalHandlers.UninstallHandler | src/lib/thread_mgr/thread_mgr.c:643-670 | the array becomes what Uninstall says |
| SignalTable.SignalHandlers.HandlerOf | src/lib/thread_mgr/thread_mgr.c:153-160 | the manager thread finds the map's callback |
| TaskReplay.Load | src/bin/install_data/install_data.c:87-119 | every task kept has an index in range and a valid point |
| TaskReplay.LoadReadsLines | src/bin/install_data/install_data.c:87-119 | the tasks are the readable lines with index 0 to 19, field by field and in their order |
| TaskReplay.LoadAppend | src/bin/install_data/install_data.c:265-267 | lines are read independently and in order |
| TaskReplay.LastWriter | src/bin/install_data/install_data.c:121-153 | an index is valid iff its last task has a nonnegative delay, and has the coordinates of its last install |
| TaskReplay.UntouchedUnchanged | src/bin/install_data/install_data.c:121-153 | an index without a task is unchanged, and without an install keeps its coordinates |
| TaskReplay.ReplayConfluentIff | src/bin/install_data/install_data.c:295-321 | two segments replay to the same iff they agree on what the list leaves of them |
| TaskReplay.RestartConfluent | src/bin/install_data/install_data.c:194-208 | after a whole memset with any of the old worker's words among or after its own, the full replay gives what it gives from the cleared segment |
| TaskReplay.SharedSegment.Install | src/lib/store/point.c:80-87 | the array changes at the index only, and not at all for a bad index |
| TaskReplay.SharedSegment.Invalidate | src/lib/store/point.c:89-96 | the flag at the index is cleared, and nothing else |
| TaskReplay.SharedSegment.Clear | src/bin/install_data/install_data.c:202 | every point is zeroed |
| TaskReplay.SharedSegment.ProcessEntry | src/bin/install_data/install_data.c:121-157 | an entry is performed as Perform says |
| TaskReplay.SharedSegment.TimesAdd | src/bin/install_data/install_data.c:132 | each task comes its delay, or minus a negative one, after the task before it |
| TaskReplay.SharedSegment.RunTasks | src/bin/install_data/install_data.c:159-175 | walking the list performs the whole replay in place, task k at the sum of the absolute delays up to k |
| InstallData.RefinesThreadManager | src/bin/install_data/install_data.c:178-321 | every step of the program is a step of the thread manager or leaves it alone |
| InstallData.WorkersRunFreely | src/lib/thread_mgr/thread_mgr.c:300-562 | the start, exit, show, cancellation and end of a worker are steps of the program just as they are of the library |
| InstallData.StepKeepsInv | src/bin/install_data/install_data.c:178-342 | every step keeps main's knowledge of the handle table, and no worker faults at the segment or in th_exit's update |
| InstallData.WholeProgramSafe | src/bin/install_data/install_data.c:295-342 | in every interleaving at most one worker is in or before thread_entry_point, and none is, nor touches the segment, once destroy_shm is called |
| InstallData.RestartLoopClean | src/bin/install_data/install_data.c:295-321 | every th_execute of the loop finds all slots empty, and every th_wait_all returns OK |
| InstallData.AccessFaultsIff | src/bin/install_data/install_data.c:131-202 | an access to the segment by a worker or by the memset faults iff the segment has been detached |
| InstallRestart.RestartIff | src/bin/install_data/install_data.c:295-321 | over every run, at the end of a round main starts the worker anew iff clear_and_restart has begun since the round began, and else leaves the loop |
| InstallRestart.EndsUncalled | src/bin/install_data/install_data.c:295-342 | a run past the loop left it at a test with no callback begun in that round, and began no round after |
| InstallHangs.JoinedIsAsked | src/bin/install_data/install_data.c:313-319 | over every run without a hazard step of main, a thread it joins has been asked to cancel, and one it waits for has been or has FINISHED |
| InstallHangs.RoundEndsIff | src/bin/install_data/install_data.c:308-321 | after every such run, once the worker is started, main can come to the test of its loop iff the lock of the worker's record does not belong to a worker cancelled in its last show_thread, or has been passed; otherwise it never does |
| InstallHangs.NormalEndCanHang | src/bin/install_data/install_data.c:159-319 | a run without a signal in which a worker that has run to its end leaves main waiting for its lock for ever |
| InstallRaces.RunKeepsSteady | src/bin/install_data/install_data.c:178-342 | no run faults in which main neither cleans up a handle under a call that looks through it nor destroys the segment before or under the memset of a callback looked up |
| InstallRaces.FaultIff | src/bin/install_data/install_data.c:178-342 | a run leads to a fault iff main does one of these in it |
| InstallRaces.ClearFaultsIff | src/bin/install_data/install_data.c:323-342 | with SIGHUP uninstalled, the memset can store to the detached segment iff the callback has been looked up and has not finished clearing |
| InstallRaces.GracefulExitCanFault | src/bin/install_data/install_data.c:178-192 | a run in which graceful_exit's th_kill looks through the slot main has just emptied |
| InstallRaces.GracefulExitKills | src/bin/install_data/install_data.c:178-192 | left alone, graceful_exit cancels the worker unless it has been cancelled or has FINISHED |
| InstallRaces.LastShowCanFault | src/bin/install_data/install_data.c:308-319 | a run without a signal in which the worker's last show_thread does |
| InstallRaces.RestartCanPrecedeClear | src/bin/install_data/install_data.c:194-208 | a run in which the restarted worker is active while the clear is under way |
| InstallRaces.ClearCanOutliveDestroy | src/bin/install_data/install_data.c:308-342 | a run in which the memset faults on the detached segment |
| InstallRun.WritesReplay | src/bin/install_data/install_data.c:141-146 | the words a worker stores for a list amount to its replay |
| InstallRun.RunIsProgramRun | src/bin/install_data/install_data.c:159-342 | words aside, each run is a run of the program as InstallData has it, faults included |
| InstallRun.StepKeepsInv | src/bin/install_data/install_data.c:159-208 | word by word, the segment is what the latest worker's stores and the zeroing since its start make of the one it started on; its stores never fault, the memset's exactly after destroy_shm |
| InstallRun.FinishedWorkerInstalledIff | src/bin/install_data/install_data.c:159-342 | in every interleaving, once the latest worker has finished, the segment is the full replay from the cleared one iff each word zeroed since its start was stored again by it later or is zero in the replay |
| InstallRun.FaultIff | src/bin/install_data/install_data.c:159-342 | word by word, a run leads to a fault iff main destroys the segment or cleans up the handle under another call in it, and faults in no other |
| InstallRun.RestartSpoilsIff | src/bin/install_data/install_data.c:194-208 | some run ends its latest worker on another segment than the replay iff the replay leaves anything but a cleared segment |

## Left out

- `src/lib/log_mgr/log_mgr.c`, `src/bin/monitor_shm/monitor_shm.c` and all logging: output and a polling loop over library calls.
- The statistics of `show_points` and `show_segments`: they only read.
- Parsing of lines and arguments: `Line` is a line already read by `sscanf`; the index check is kept.
- Liveness: no claim is made that the condition wait returns, or that a lock waiter that can get its lock does in the end; `InstallHangs.RoundEndsIff` says when main still can.
- Memory reclamation: freed nodes and records are not distinguished, `malloc` does not fail, and the byte loop of `push_list_item`, which copies a value onto itself, is dropped, as is the `size` field of hash nodes, which nothing reads.
- The overflow of the 32-bit `size` of a list, and `abs` of the least integer as a delay.
- ThreadModel.Do: the unlocked NULL check of `th_wait` is part of the locked section that follows it, and so is the `show_thread` before a join; the one after the join, or instead of it, is one step that waits for the record's lock. Only the one waiter of a handle empties its slot, so it finds the same record throughout.
- `get_thread_state`, which is for tests, has the same unlocked check as `th_kill` and is not a step of `ThreadModel`; `get_thread_name` is called by live workers, whose slot is theirs.
- ThreadModel.DoKill: does not tell a thread that a waiter has joined from one that has terminated, so a `pthread_cancel` between the join and the cleanup, which POSIX leaves undefined, is a cancel of a terminated thread.
- In `ThreadModel` a `th_kill` and the last `show_thread` of a worker keep a record's lock from step to step; the nested lock of the kill's own `show_thread`, the fetch of a lock's address apart from its taking in the worker's `show_thread`, and the first `show_thread` of `func_decorator`, which is in one step with its StoreLock section and does not wait for a kill's lock there, are in `LockDiscipline` only.
- `pthread_create` failing, which leaves StoreLock held for good.
- Thread names, signal masks and the self-pipe: a signal becomes a callback step at any time.
- The race of the signal table between main and the manager thread: its operations are taken one at a time. The lookup of a callback and its start are two steps of `InstallData`.
- The condition variable of `install_data`: a wait returns at any time, and a signal of a destroyed one is not a fault (see above).
- Floating point: coordinates are reals that are only copied.
- TaskReplay.RestartConfluent: takes the memset and the old worker's stores word by word; at the indices that matter every byte written is zero, so bytes would give the same.
- SharedMemory.Connect: with semaphores in use only the failure of `semget` is an answer; a failed `semop` there is logged and ignored by the source.
- Semaphore.Do: a removed semaphore is not created anew under the same key by a later connect.
- ThreadMgr.ThreadTable.ThWaitAll: states what holds when no other library call runs at the same time, as the source's own results are not defined otherwise.
