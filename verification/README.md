# Checkpoint/restart tests: a verified model

The repository is a suite of tests for checkpoint and restart of Linux processes. Its tests are
small protocols: a program that announces where it is and waits to be checkpointed, scripts that
freeze and restart it, children that pass a futex on by dying, children that test each other's file
locks, threads between two barriers, scripts that tear down and rebuild a directory tree. A
test is only worth something if it cannot fail, hang or deceive by itself. This project models
these protocols and proves what they promise, for all interleavings and all sizes.

A protocol is a step function `step(state, event)` that gives the next state or nothing; one event
is one access to something shared. A run is a list of events (`Runs.Exec`), so a statement about
`Exec` is a statement about every interleaving. Code that changes things in place is modelled by
classes, arrays and loops.

| modules | what they model |
|---|---|
| `LabelProgram`, `LabelMeaning`, `Handshake`, `Replay`, `LabelOutcome` | label programs, `do_ckpt`, the driver in eventfd/run.sh that checkpoints and restarts them, and how their runs end |
| `RobustFutex`, `RobustMarks`, `RobustChain`, `RobustBaton`, `RobustList` | futex/robust.c: who holds the futex, what the word says about its owner, the chain of dying owners and who is left out of it, the list the kernel walks |
| `PiFutex`, `PlainFutex` | futex/pi.c, futex/plain.c |
| `ByteLocks`, `FileLock1`, `FileLock1Exact`, `FileLock1Verdict`, `FileLock1Ends`, `FileLock2`, `FileLock2Verdict`, `FileLock2Ends` | fileio/filelock1.c, fileio/filelock2.c over a table of byte locks |
| `FileCopy` | fileio/fileio1.c under fileio/run-fileio1.sh |
| `ThreadLock`, `ThreadLockLost` | process-tree/pthread4.c, with a restart that keeps the lock and with one that loses it |
| `FileTree`, `HoldTree`, `TreeScripts`, `RandTree`, `TreeTest` | the Python scripts of fs/ and fs/tree.sh |
| `FieldSplit`, `EpollRing`, `ProcessTree` | `fieldnumber`, the epoll ring, the ids of process-tree/ptree1.c |
| `Runs`, `Counting`, `BufferedFile`, `Decimal` | runs, counting, writes through a buffer, numbers in decimal |

Where a promise does not hold unconditionally, there is a lemma that says exactly when it does:

- The driver of eventfd/run.sh gets all its images exactly if the program reaches `do_ckpt` at every
  label (`Handshake.Completes`).
- FUTEX_WAITERS survives the parent's release exactly if it was set then (`RobustChain.WaitersStay`).
- FUTEX_OWNER_DIED is set exactly as long as the last holder has died or has not yet recovered the
  futex; a child goes away without having held it exactly for one of two reasons
  (`RobustMarks.OwnerDiedTells`, `RobustMarks.NobodyLeavesWithoutReason`).
- If all children of robust.c sleep at the release, every one of them comes to hold the futex exactly
  if no FUTEX_WAIT fails for good or returns EAGAIN and no wake-up finds nobody asleep too early; one
  interruption can be enough to leave a child out (`RobustBaton.BatonChain`,
  `RobustBaton.InterruptionLeavesOut`).
- The tests of filelock1.c cannot fail exactly if the lock list is compatible; with two or more
  children, a list with a read and a write entry of one child on a byte is not (`FileLock1Exact.SoundExactlyIfCompatible`).
- A run of filelock2.c cannot fail exactly if it makes `checkpoint-done` before `test-done`
  (`FileLock2.SoundExactlyIfOrdered`).
- No child of pi.c but child 0 can fail its priority check exactly if every child from number 2 on is
  queued before child 0 releases the futex; for child 0's own check there is a further condition
  (`PiFutex.OrderIsCertainExactlyIf`, `PiFutex.NoCheckFailsExactlyIf`).
- A child of filelock1.c that tests undisturbed passes exactly if every lock of the list is in the
  table as it expects, so it misses the loss of its own locks (`FileLock1Verdict.PassesExactlyIf`).
- A restart that loses the lock of pthread4.c is certain to be reported exactly if there is only one
  thread (`ThreadLockLost.CertainlyNoticedExactlyIf`).
- Until the word of plain.c is set, the children past the futex are exactly those whose FUTEX_WAIT
  failed for good (`PlainFutex.NobodyPassesEarly`).
- A tree filled with one tag passes the check for another exactly if it has no files
  (`TreeScripts.FillThenCheck`).
- New names of rand_tree.py never meet an old one exactly if no old name is a number beyond the number
  of old names (`RandTree.NeverClashesExactlyIf`).

## Model

| member | source | states |
|---|---|---|
| LabelProgram.StepKeepsCoherent | libcrtest/labels.h:39-59 | at every step of the program, log file, buffered lines and what is left to do add up to the meaning of the program, and op_num agrees with the place in the text |
| LabelProgram.FlushKeepsCoherent | libcrtest/labels.h:39-59 | flushing any part of the buffered log at any time loses, repeats and reorders nothing |
| LabelProgram.MarkersDoNotMatter | libcrtest/common.c:42-96 | making or removing marker files leaves log file, buffered lines and what is left to do in agreement |
| LabelProgram.StepLowersRank | libcrtest/common.c:79-96 | every step but a poll in vain brings the program nearer to its end |
| LabelMeaning.MeaningOfFailure | libcrtest/labels.h:46-58 | if label k is the first whose action returns a negative result, the program logs all headers up to that of k, the failure of k and the lines at out:, with op_num k and k + 1 calls of do_ckpt |
| LabelMeaning.MeaningOfGivingUp | libcrtest/labels.h:39-59 | code that exits before label k ends the log there, with op_num k |
| LabelMeaning.MeaningOfSuccess | libcrtest/labels.h:46-58 | without a failing action all labels are passed and op_num is their number |
| LabelMeaning.OneWayToEnd | libcrtest/labels.h:39-59 | a program fails at one label, gives up before one label or passes all labels, and only one of these |
| LabelMeaning.HeadersOfMeaning | libcrtest/labels.h:46-57 | the headers in the log are those of labels 0, 1, 2, ... up to the failing one in order, and the only failure is that of this label |
| Handshake.LockStep | eventfd/run.sh:63-82 | in every interleaving image i is taken inside do_ckpt of label i, neither side ever acts on a stale marker file, and the driver finishes only after the program |
| Handshake.OriginalLog | eventfd/run.sh:57-100 | the checkpointed run ends with the log and op_num of the undisturbed program |
| LabelOutcome.OriginalOutcome | eventfd/run.sh:57-100 | a checkpointed run that has ended has the log, op_num and number of do_ckpt calls that the first failing label, the code that gave up or the success of all labels determines |
| Handshake.NoDeadlock | eventfd/run.sh:57-100 | from every reachable state the run can be brought to its end, until then someone can make progress, and no step undoes progress |
| Handshake.Completes | eventfd/run.sh:63-95 | a run that has come to rest has as many images as do_ckpt was called, and the driver is finished if and only if do_ckpt was called at every label |
| Handshake.SuccessReachesAll | libcrtest/labels.h:39-59 | a program whose actions succeed and whose code does not give up calls do_ckpt at every label |
| Handshake.Reachable | common.sh:32-67 | the lock-step invariant holds in every reachable state, with a freezer that takes hold late |
| Replay.ReplayEquivalence | eventfd/run.sh:107-129 | any saved image over its saved log, wherever in do_ckpt it was frozen, never waits, leaves checkpoint-ready alone and ends with the log and op_num of the undisturbed program and of the original run |
| LabelOutcome.ReplayOutcome | eventfd/run.sh:107-129 | the same for every restart from every image, without reference to the original run |
| Replay.DoneIsTakenOnce | libcrtest/common.c:79-96 | a restarted process takes checkpoint-done away if and only if it was frozen in the polling loop, and only at that label |
| RobustFutex.MutualExclusion | futex/robust.c:104-222 | in every interleaving, with any error of FUTEX_WAIT and either kind of release, at most one process is between holding the futex and its exit, and only after the parent's release |
| RobustFutex.Reachable | futex/robust.c:104-222 | the right to hold the futex is with one party at most: the free word, the parent, a holder or a dying holder |
| RobustMarks.LivingOwner | futex/robust.c:99-112 | in every reachable state a child that has recovered the futex owns the word without FUTEX_OWNER_DIED, a living owner is on its list or pending, and before exit it is on the list with nothing pending |
| RobustMarks.OwnerDiedTells | futex/robust.c:182-192 | after a release that finds waiters, FUTEX_OWNER_DIED is set if and only if the last holder has died or has not yet recovered the futex from a dead one, and then no living child owns the word |
| RobustMarks.NobodyLeavesWithoutReason | futex/robust.c:136-177 | a child goes away without having held if and only if, once, FUTEX_WAIT failed for good or EAGAIN came with a changed word; everything else is retried |
| RobustMarks.FailuresAreCounted | futex/robust.c:117-177 | what a child counts as failures is the number of failed waits plus the number of times it found the futex free |
| RobustMarks.FreeWordIsTaken | futex/robust.c:117-122 | a free word means that nobody has held and nobody sleeps, and the next child that tries holds it at once |
| RobustMarks.WaitersCanBeLost | futex/robust.c:182-192 | after an uncontended release there is a run in which FUTEX_WAITERS is lost although a child sleeps |
| RobustChain.WaitersStay | futex/robust.c:188-212 | the word keeps FUTEX_WAITERS and is never free after the release if and only if the release finds FUTEX_WAITERS set |
| RobustChain.HoldersInOrder | futex/robust.c:116-212 | in every run after a release that finds FUTEX_WAITERS, with any interruptions, give-ups and latecomers, nobody holds twice, the first holder sees no FUTEX_OWNER_DIED and every later one does |
| RobustBaton.BatonChain | futex/robust.c:116-212 | if all children sleep at the release, every run is bounded by 12 steps a child and 4 an interruption; at rest, all children have held and are gone without a failure if and only if no FUTEX_WAIT failed for good or returned EAGAIN and no wake-up found nobody asleep before all had held |
| RobustBaton.UndisturbedChain | futex/robust.c:116-212 | without interruptions and give-ups a run can only stop when every child has held and is gone without a failure |
| RobustBaton.InterruptionLeavesOut | futex/robust.c:136-149 | with two children or more asleep, a run with a single interruption exists in which a child goes away without having held and without counting a failure |
| RobustBaton.StepLowersRank | futex/robust.c:116-193 | every step lowers a measure over all children, but for an interruption, which raises it by three |
| RobustBaton.PresentMoves | futex/robust.c:282-294 | the baton is never dropped: a holder, up to waking the next one, can always go on |
| RobustBaton.EveryoneCanSleep | futex/robust.c:104-134 | from every start there is a run to a state in which all children sleep while the parent owns the futex |
| RobustList.RobustListHead.constructor | futex/robust.c:75-94 | the list starts circular and empty, with nothing pending |
| RobustList.RobustListHead.SetPending | futex/robust.c:112 | setting list_op_pending keeps the list well formed and uncovers no futex |
| RobustList.RobustListHead.TakeWord | futex/robust.c:192 | only a pending futex is taken, so the taken word is covered at once |
| RobustList.RobustListHead.LinkNext | futex/robust.c:99 | linking the new element keeps the list as it was |
| RobustList.RobustListHead.LinkHead | futex/robust.c:100 | linking the head puts exactly the new futex in front of the list |
| RobustList.RobustListHead.ClearPending | futex/robust.c:101 | clearing list_op_pending uncovers nothing, because the futex is on the list by then |
| RobustList.RobustListHead.Acquire | futex/robust.c:96-193 | stopped after any number of assignments, the list is well formed and every futex with the TID is on it or pending |
| RobustList.RobustListHead.ExitWalk | futex/robust.c:9-19 | the walk along the links ends and recovers exactly the futexes on the list and the pending one |
| RobustList.RobustListHead.DieWhileAcquiring | futex/robust.c:96-193 | whichever assignment the thread dies after, every futex with its TID is marked dead and every other one is left alone |
| PiFutex.Inherits | futex/pi.c:7-18 | the owner's priority is the highest of its own and all waiters', and equals its own if and only if nobody above it waits |
| PiFutex.PriorityOrder | futex/pi.c:473-561 | if all others are queued at any time before child 0 releases, whether it has looked at its priority or not, ownership passes N-1, N-2, ..., 1, each owner has the priority prio_min plus its number and passes its check, and child 0 has prio_min + N - 1 |
| PiFutex.VerdictStays | futex/pi.c:488-570 | a check that has failed or passed stays so in every run |
| PiFutex.WhileChild0Owns | futex/pi.c:473-507 | as long as child 0 owns the futex the others are on their way to it or queued |
| PiFutex.LatecomerSpoils | futex/pi.c:393-507 | a child from number 2 on that is not yet queued can make another child's priority check fail |
| PiFutex.OrderIsCertainExactlyIf | futex/pi.c:488-506 | no child other than 0 can fail its check in any continuation if and only if all children from number 2 on are queued |
| PiFutex.NoCheckFailsExactlyIf | futex/pi.c:488-558 | no check at all can fail in any continuation if and only if besides that child 0 has not failed, and child N-1 is queued if child 0 has not looked yet |
| PlainFutex.NoLostWakeup | futex/plain.c:50-178 | once the word is set and N are woken nobody sleeps or can sleep again; each child counts once; every run is bounded and can only stop with all N counted |
| PlainFutex.NobodyPassesEarly | futex/plain.c:50-94 | the word is set only after all children passed the first barrier; until then the children past the futex are exactly those whose FUTEX_WAIT failed with an error that is not retried, so without such errors none |
| PlainFutex.WakeReachesAll | futex/plain.c:166-178 | waking as many as there are children leaves no sleeper behind |
| ByteLocks.Locked | fileio/filelock1.c:50-79 | a granted lock gives exactly the bytes of the range in the asked mode and leaves all other entries alone |
| ByteLocks.LockedKeepsExclusive | fileio/filelock1.c:50-79 | granting only without conflict keeps every byte with one writer or only readers |
| ByteLocks.FewerKeepsExclusive | fileio/filelock2.c:151-220 | unlocking and exiting keep that too |
| FileLock1.LocksOutliveTests | fileio/filelock1.c:156-214 | for any list, no child ends on a signal before all have tested all locks, and events told are events read plus events pending |
| FileLock1.ReachableProtocol | libcrtest/common.c:422-462 | the conservation law of the eventfds holds in every reachable state, whatever the verdicts are |
| FileLock1.NoConflictOnMine | fileio/filelock1.c:81-143 | in a compatible list nobody stands in the way of a lock one is expected to get |
| FileLock1.ConflictOnOthers | fileio/filelock1.c:81-143 | while a child tests, every foreign write lock is still held in full |
| FileLock1.Reachable | fileio/filelock1.c:335-373 | for a compatible list and any number of children, no test fails in any reachable state |
| FileLock1Exact.SoundExactlyIfCompatible | fileio/filelock1.c:81-143 | no test fails in any interleaving if and only if the list is compatible |
| FileLock1Exact.IncompatibleFails | fileio/filelock1.c:81-143 | every incompatible list has an interleaving in which a test fails although no lock was lost |
| FileLock1Exact.ReachTesting | fileio/filelock1.c:156-214 | the setup can always be brought to the point where all children test |
| FileLock1Exact.LocksListIsCompatible | fileio/filelock1.c:41-48 | the list in the source is compatible |
| FileLock1Verdict.TableIsList | fileio/filelock1.c:156-187 | from readiness until test-done the table holds exactly the bytes of every child's own entries, in the mode of its last entry for the byte |
| FileLock1Verdict.PassesExactlyIf | fileio/filelock1.c:81-143 | for any table and any list, a child that tests undisturbed passes if and only if every entry it may have is in nobody's way and every other one is in its way |
| FileLock1Verdict.ForeignLossIsNoticed | fileio/filelock1.c:129-132 | a child notices that nothing is left of another child's write lock |
| FileLock1Verdict.OwnLossIsMissed | fileio/filelock1.c:97-137 | a child does not notice the loss of its own locks |
| FileLock1Verdict.LocksEndWithTheChild | fileio/filelock1.c:139-154 | a child that has failed or ended holds nothing |
| FileLock1Ends.EveryRunEnds | fileio/filelock1.c:156-373 | for one child or more and any list runs are bounded; for a compatible list they can only stop with the parent finished and every child ended by its signal |
| FileLock2.BlockedLockerComesSecond | fileio/filelock2.c:151-220 | child 2 has the range only after child 1 gave it up and hence after test-done; child 1's test never fails; signals come after both tests |
| FileLock2.BlockedAtCheckpoint | fileio/filelock2.c:151-202 | from readiness until test-done child 1 holds exactly the range for writing and child 2 is blocked |
| FileLock2Verdict.Child1Notices | fileio/filelock2.c:68-125 | if a restart gives child 2 a byte of the range too early, child 1 does not pass its test in any run as long as child 2 holds it |
| FileLock2Verdict.Child2Notices | fileio/filelock2.c:201-217 | if a restart lets child 2 go on while child 1 holds a byte, child 2 does not pass its test in any run as long as child 1 waits |
| FileLock2.OrderedRunIsSound | fileio/filelock2.c:151-220 | a run that makes checkpoint-done before test-done has no failing check and no failing test |
| FileLock2.SoundExactlyIfOrdered | fileio/filelock2.c:151-220 | for every order of making the markers: no run that makes them so can fail if and only if checkpoint-done comes before test-done, or no test-done comes |
| FileLock2.DisorderFails | fileio/filelock2.c:151-220 | there is a run with test-done first in which child 2's check fails |
| FileLock2Ends.EveryRunEnds | fileio/filelock2.c:301-404 | runs have at most 50 steps; with the markers in order they can only stop with the parent finished and both children ended by its signals |
| FileCopy.CopySurvivesRestart | fileio/run-fileio1.sh:64-96 | after any rounds of freezing, imaging, going on, being killed and restarted, also between write and flush, a copy that ends equals the source and one that runs can go on; at any time the output is the beginning of the source with every counted record and at most one more |
| FileCopy.CopyKeepsCoherent | fileio/fileio1.c:185-224 | at every point output, buffer and record in hand are what has been read |
| ThreadLock.ExactlyOneHolder | process-tree/pthread4.c:40-103 | once the second barrier is full exactly one thread has won and holds the mutex, every unlock is by the holder, and no thread reports failure |
| ThreadLock.HeldUntilTestDone | process-tree/pthread4.c:62-97 | from the full second barrier until test-done the mutex is held, by the one thread that won it, and no thread tries again, unlocks or exits |
| ThreadLock.BarriersHold | process-tree/pthread4.c:40-70 | nobody tries before all threads are created and arrived, and nobody, main included, passes the second barrier before all have tried |
| ThreadLockLost.ExitStatusTells | process-tree/pthread4.c:85-166 | after a restart that loses the lock, the exit status is 1 if and only if a thread that had the lock got it once more |
| ThreadLockLost.CertainlyNoticedExactlyIf | process-tree/pthread4.c:78-94 | a lost lock is reported in every run that ends if and only if there is one thread |
| ThreadLockLost.LossCanBeMissed | process-tree/pthread4.c:78-97 | with two threads or more there is a run that ends with status 0 although the lock was lost |
| ThreadLock.EveryRunEndsWell | process-tree/pthread4.c:142-278 | runs are bounded and can only stop with main finished, exit status 0, all threads gone and the mutex free |
| ThreadLock.OpenBarriers | process-tree/pthread4.c:40-103 | a full barrier means that every thread has arrived there |
| FileTree.FileSystem.List | fs/check_tree.py:43 | a walk finds every entry of a directory, of the right kind, once |
| FileTree.ExpectedText | fs/check_tree.py:50 | the expected text of a file, spelled out for one tag and path |
| FileTree.TagIsTold | fs/fill_tree.py:46 | equal texts for one file have equal tags |
| FileTree.FileIsTold | fs/fill_tree.py:46 | equal texts for one tag are those of the same path, for names as a file system has them |
| HoldTree.HoldScript.HoldDir | fs/hold_unlinked_tree.py:49-62 | all files below are held, removed and recorded once; all directories are held and recorded once, parents first |
| HoldTree.HoldScript.RemoveBelow | fs/hold_unlinked_tree.py:65-67 | bottom-up, no directory is removed before it is empty, and exactly what was inside is gone |
| HoldTree.HoldScript.Uproot | fs/hold_unlinked_tree.py:46-68 | nothing is left of the tree, everything else is untouched, and each descriptor still refers to what was there |
| HoldTree.HoldScript.Remake | fs/hold_unlinked_tree.py:70-77 | every parent is made before its children and no name is taken; the tree has exactly the old paths, with new contents |
| HoldTree.HoldScript.Run | fs/hold_unlinked_tree.py:44-77 | both for the whole script, with and without -n |
| TreeScripts.Fill | fs/fill_tree.py:39-47 | every file of the tree gets the text for the tag and nothing else changes |
| TreeScripts.CheckFile | fs/check_tree.py:49-59 | reading the expected length and two more bytes accepts exactly the expected content |
| TreeScripts.Check | fs/check_tree.py:43-60 | the check accepts if and only if every file of the tree has its expected content |
| TreeScripts.FillThenCheck | fs/tree.sh:9-10 | filling with one tag and checking with another accepts if and only if the tags are equal or there is no file |
| RandTree.NeverClashesExactlyIf | fs/rand_tree.py:46-57 | any number of new names stays free of old ones if and only if no old name is a number beyond the number of old names |
| RandTree.NextIsFresh | fs/rand_tree.py:48 | the next name of a numbered directory is free and keeps it numbered |
| RandTree.RandScript.RandomDir | fs/rand_tree.py:46-51 | a directory is listed and made under some listed directory; making fails exactly if the name is taken |
| RandTree.RandScript.RandomFile | fs/rand_tree.py:54-57 | a file is written under some listed directory; this fails exactly if a directory has the name |
| RandTree.RandScript.Run | fs/rand_tree.py:104-113 | whatever is chosen, exactly the requested numbers of new directories and files, names numbered without gap, old entries kept, expected contents |
| TreeTest.TreeSh | fs/tree.sh:5-16 | every check of the test passes, the final tree has the paths rand_tree.py made, the held descriptors give the contents before, and with a file in it the final tree passes for the tag new only |
| FieldSplit.SplitMeans | libcrtest/common.c:286-303 | the plain split that serves as reference: fields hold no blank, stand at their offset, and follow a blank |
| FieldSplit.FieldNumber | libcrtest/common.c:286-303 | field n of the plain split if a blank follows it, cut by one NUL, with the fields before it left; otherwise NULL and nothing changed |
| FieldSplit.MountFields | libcrtest/common.c:334-342 | extracting fields 3, 2, 1 gives those of the line as it was, NULL if and only if too few blanks, and no returned field is spoilt |
| EpollRing.PreviousIsPredecessor | epoll/cycle.c:233 | for every circumference an int can hold the unsigned expression is the predecessor in the ring |
| EpollRing.MakeRing | epoll/cycle.c:164-219 | the sets form one ring, each watching just its predecessor, the last one also the pipe |
| EpollRing.RouteFollowsRing | epoll/cycle.c:230-249 | every awaited pair is an edge for becoming readable, each target is the next source, and the route ends at the set that holds the read end for reading and the write end for writing |
| EpollRing.Walk | epoll/cycle.c:230-243 | the walk waits along that route and gets to the last set only if every pair is an edge, whatever the sets watch; in the ring an unexpected event is impossible |
| Decimal.ValueOfStr | fs/rand_tree.py:48 | a number read back from its digits is the number, and it has no leading zero |
| Decimal.StrLength | process-tree/ptree1.c:65 | a number below ten to the k has at most k digits |
| ProcessTree.SuffixInjective | process-tree/ptree1.c:77 | different ways down the tree give different ids |
| ProcessTree.CreateChildren | process-tree/ptree1.c:62-89 | every way down is forked exactly once under its own id, and each id fits the allocated buffer |
| ProcessTree.DoChild | process-tree/ptree1.c:91-106 | a process and everything below it, exactly once |
| ProcessTree.PowersByLevel | process-tree/ptree1.c:62-89 | k subtrees of one level less make k + k^2 + ... + k^n processes |
| ProcessTree.Run | process-tree/ptree1.c:144-180 | k + k^2 + ... + k^D descendants with pairwise different ids and data files; the ids are exactly those of the ways down of at most D steps, and none is that of main |

## Left out

- System calls that fail for reasons outside the protocols, cgroup mounting, parsing of /proc, log texts of no consequence, and option parsing.
- The kernel's own checkpoint and restart: an image is taken to be faithful, and what happens around it is modelled.
- LabelProgram: checkpoints at every label only (`ckpt_op_num` is -1); a single chosen label is not modelled.
- Handshake: the final `wait` is modelled as waiting for the program's end; the `sleep` calls carry no meaning.
- RobustFutex: whether the kernel clears the TID of a dead owner is left open, both are covered; how the parent counts ready children is not modelled.
- RobustBaton.BatonChain: takes "all children are asleep at the release" as a hypothesis, because the source only guesses it with a sleep; RobustChain.HoldersInOrder does without it.
- RobustBaton.UndisturbedChain: takes "nobody is interrupted and nobody gives up" as a hypothesis; what holds otherwise is in RobustBaton.BatonChain.
- RobustList: FUTEX_WAITERS is not part of the list model; it is in RobustFutex.
- PiFutex: only the contended path; the retry budget of the release and the detection of an uncontended futex are not modelled.
- FileLock1: entries with a child that is never forked, with negative fields, or with length 0 (to the end of the file) are outside the model; what the parent does after a child has failed is not modelled.
- FileLock1: what several children find out that test a damaged table at the same time; FileLock1Verdict has one child testing undisturbed.
- FileLock1Ends.EveryRunEnds: takes one child or more; with none the parent's read of the eventfd blocks, and the source forks two.
- FileCopy: read errors and the snapshot of the log are not modelled.
- FileTree: permissions, symbolic links, hard links and files of other kinds are not modelled.
- HoldTree.HoldScript.Run: the root is an existing directory other than "/", as the script's own rmdir needs.
- RandTree.RandScript.Run: the root exists already; how makedirs makes it is not modelled, and random choices are arbitrary.
- EpollRing: the array has as many slots as the ring has sets, where the source has three; the wait for the pipe after the walk is not modelled, since the last set may also report its predecessor.
- ProcessTree: the fixed buffers for the names of log and data files are not modelled, nor is a fork that fails.
- `mount_entry_has_option` and the rest of `freezer_mountpoint`: it stops at the first option of the same length, so the obvious statement about it does not hold.
- `copy_data` and `data_compare` in libcrtest/common.c: the destination is opened for writing only and then read.
- fs/notify/run.sh and epoll/run.sh as drivers of the handshake: they use the marker files differently.
- The remaining directories (ipc, pty, userns, selinux, smack, eclone, sleep and others): thin layers over kernel behaviour.
