# Verified model of the Micro XRCE-DDS Agent's state machines

The Micro XRCE-DDS Agent connects resource-constrained clients to a data space. This project models the
state machines inside it and proves, for all inputs and all runs, what they are meant to keep. Each model
follows the branches, constants and machine arithmetic of the C++ code; where the code falls short of what
it is for, the exact condition under which it meets it is proved, beside an input where it does not.

`dafny verify dfyconfig.toml` checks the whole project (Dafny 4.11).

| module (file) | models |
|---|---|
| `SeqNums` (SeqNum.dfy) | 16-bit serial numbers, against RFC 1982 with SERIAL_BITS = 16 |
| `CedAccess`, `CedTopic`, `CedRuns` | the shared topic of the embedded (CED) middleware: a ring under a wrapping counter, refined to an unbounded log, and whole runs of writers and readers |
| `CedTopicManagers` (CedTopicManager.dfy) | the process-wide table of shared topics and its listeners |
| `SharedMutexes` (SharedMutex.dfy) | the reader/writer lock on one condition variable |
| `Roots`, `Sessions`, `Processors` (Root.dfy, Sessions.dfy, Processor.dfy) | client table with live iterator, session maps, and CREATE_CLIENT and DELETE handling across them |
| `Conversions`, `CedMiddlewares`, `ProxyClients`, `ProxyHistories` (Conversion.dfy, CedMiddleware.dfy, ProxyClient.dfy, ProxyHistory.dfy) | object ids, the middleware's entity tables, and a client's object table under the creation modes of Table 7 of DDS-XRCE 1.0, over whole lives |
| `TokenBuckets`, `Readers` (TokenBucket.dfy, Reader.dfy) | pacing of data readers |
| `Schedulers` (Scheduler.dfy) | the bounded queue and the sender that puts packets back |
| `Cdr`, `XrceTypes`, `XrcePayloads`, `Messages`, `WireFormats` (Wire.dfy) | CDR (section 9.3 of CORBA 3.3 Part 2), the XRCE types, and message framing (section 8.3 of DDS-XRCE 1.0) |
| `Words`, `XrceIds` | machine words and Option, client keys and object kinds |

Code that changes things step by step is a class whose methods are proved against functions of the old
state; further theorems say what these functions must do in other terms: the requests made, the bytes on
the wire, the clock, or whole runs. Concurrency is modelled as steps, one for each section the code runs under
a lock; theorems over runs quantify over all interleavings.

## Where the code differs from its purpose

Each entry names the exact condition and, after it, an input that fails it.

- The waiting part of a topic read has no lap repair: a wait overtaken by the ring can return a sample ahead
  of its turn, and the next read may return it again or an older one (`CedRuns.DeliveriesAscendIff`,
  `CedRuns.NextReadBreaksOrderIff`, `CedRuns.OvertakenWaitDeliversTwice`). It loses nothing the ring still
  holds (`CedRuns.LossIsBoundedIff`).
- A waiting read steps one slot for each wake-up, so it can return nothing although a sample it may see is
  there (`CedRuns.EvaluateReturnsNothingIff`, `CedRuns.WaitSleepsThroughSample`).
- A reader a whole turn of the 16-bit counter behind can miss retained samples (`CedTopic.ScanRefinesLog`,
  `CedTopic.FullTurnHidesEverything`).
- The token bucket's shortfall wait wraps around, so a short call always sleeps its whole timeout
  (`TokenBuckets.WaitIsTheTimeout`). A call that lacks tokens and whose timeout ends before the last grant
  overdraws the bucket (`TokenBuckets.ConservationIsExact`, `TokenBuckets.NegativeTimeoutOverdraws`); the read
  loop computes negative timeouts after its deadline but none of that kind, so it keeps the rate bound under
  every deadline (`Readers.ReadTask`).
- A thread that holds the lock and asks for it exclusively blocks all exclusive calls for ever
  (`SharedMutexes.ExclusiveIsGrantedIff`, `SharedMutexes.UpgradeDeadlocks`).
- Re-creating a client under a new session id loses its properties (`Roots.PropertiesAreAnnouncedIff`,
  `Roots.NewSessionLosesProperties`).
- The way from a key to its end point and back can be lost: by sessions of other clients
  (`Sessions.TwoWayOverRunsIff`, `Sessions.KeysMayLoseTheirEndPoint`), by the deletion of another client
  (`Processors.DeleteClientFrame`, `Processors.DeleteTakesAnotherSession`); and a client that carries its key
  in the header leaves its end point behind when it is deleted (`Processors.DeleteClientResolves`,
  `Processors.KeyedClientLeavesItsEndPoint`).
- A CREATE_CLIENT that is refused still deletes a different client that its source resolved to
  (`Processors.RejectedClientChangesLittle`, `Processors.RefusedRequestEvicts`).
- Sizes leave out the length of optional properties and the padding of a client representation's MTU
  (`XrcePayloads.PayloadSizeIsExactIff`, `XrcePayloads.PropertiesBreakTheSize`,
  `XrcePayloads.CreatedClientBreaksTheSize`).
- Put-backs can make drops come out of push order (`Schedulers.DropsAscendIff`,
  `Schedulers.PutBackReordersDrops`).

## Model

| member | source | states |
|---|---|---|
| SeqNums.LessThanIsHalfRange | Micro-XRCE-DDS-Agent/include/uxr/agent/utils/SeqNum.hpp:36-41 | `a < b` holds iff 1 to 32767 increments lead from a to b (RFC 1982 section 3.2) |
| SeqNums.AdditionAdvancesAndSubtractionUndoes | Micro-XRCE-DDS-Agent/include/uxr/agent/utils/SeqNum.hpp:53-121 | adding 1..32767 gives a greater number at exactly that distance, and subtracting undoes it (RFC 1982 section 3.1) |
| SeqNums.TransitivityIsExact | Micro-XRCE-DDS-Agent/include/uxr/agent/utils/SeqNum.hpp:36-41 | for a < b < c the distances add up, and a < c iff their sum is below 32768 |
| SeqNums.OnlyHalfRangeIsIncomparable | Micro-XRCE-DDS-Agent/include/uxr/agent/utils/SeqNum.hpp:36-46 | distinct numbers are unordered iff their distance is 32768, and never ordered both ways |
| SeqNums.AddGuardIsExact | Micro-XRCE-DDS-Agent/include/uxr/agent/utils/SeqNum.hpp:62-69 | the guard of `+=`, itself evaluated in serial order, admits precisely 0..32767 |
| SeqNums.LapTestIsExact | Micro-XRCE-DDS-Agent/src/cpp/middleware/ced/CedEntities.cpp:189-195 | the two-clause lap test holds iff the reader is at least a whole ring behind, including where the compared numbers are incomparable |
| CedTopic.ScanRefinesLog | Micro-XRCE-DDS-Agent/src/cpp/middleware/ced/CedEntities.cpp:189-202 | a locked scan serves exactly the oldest unread, retained and permitted entry of the unbounded log, iff the reader is less than a counter turn late, or visibly lapped, or the entries the wrapped lag hides are all forbidden to it |
| CedTopic.FullTurnHidesEverything | Micro-XRCE-DDS-Agent/src/cpp/middleware/ced/CedEntities.cpp:189-202 | a reader that has read nothing when 65536 permitted entries were written is told there is nothing, whatever the ring holds |
| CedTopic.FirstPermitted | Micro-XRCE-DDS-Agent/src/cpp/middleware/ced/CedEntities.cpp:197-201 | the result is the oldest permitted entry from a place on, or the end of the log; everything before it is forbidden |
| CedTopic.SlotContentIsRetained | Micro-XRCE-DDS-Agent/src/cpp/middleware/ced/CedEntities.cpp:246-249 | the slot a cursor points at holds one of the last h entries, a later one of the same slot iff the reader lags by more than the ring |
| CedTopic.SlotSurvivesWrap | Micro-XRCE-DDS-Agent/src/cpp/middleware/ced/CedEntities.cpp:168 | wrapping the 16-bit counter does not change the slot, because the ring size divides its range |
| CedTopic.CedGlobalTopic.constructor | Micro-XRCE-DDS-Agent/src/cpp/middleware/ced/CedEntities.cpp:139-146 | an empty log under a counter of 65535 |
| CedTopic.CedGlobalTopic.Write | Micro-XRCE-DDS-Agent/src/cpp/middleware/ced/CedEntities.cpp:158-178 | a permitted write appends one entry to the log and keeps the ring the image of its last h entries; a forbidden one changes nothing |
| CedTopic.CedGlobalTopic.GetData | Micro-XRCE-DDS-Agent/src/cpp/middleware/ced/CedEntities.cpp:240-253 | the cursor moves by one; the sample in its slot is returned iff the reader may see it |
| CedTopic.CedGlobalTopic.RepairCursor | Micro-XRCE-DDS-Agent/src/cpp/middleware/ced/CedEntities.cpp:192-195 | the cursor becomes the start of the scan: the reader's place, or just before the oldest retained entry when lapped |
| CedTopic.CedGlobalTopic.StepUntilFound | Micro-XRCE-DDS-Agent/src/cpp/middleware/ced/CedEntities.cpp:198-201 | the do-while loop terminates and finds exactly the oldest permitted entry from the cursor on, or leaves the cursor at the write counter |
| CedTopic.CedGlobalTopic.ReadScan | Micro-XRCE-DDS-Agent/src/cpp/middleware/ced/CedEntities.cpp:188-202 | the whole locked scan: sample, success and new cursor are those of the scan over the log |
| CedTopic.CedGlobalTopic.WaitPredicate | Micro-XRCE-DDS-Agent/src/cpp/middleware/ced/CedEntities.cpp:208-209 | one evaluation of the wait predicate: nothing when the cursor equals the counter, otherwise one step to the content of the next slot |
| CedTopic.CedDataReader.Scan | Micro-XRCE-DDS-Agent/src/cpp/middleware/ced/CedEntities.cpp:309-315 | a reader moves just past the entry it returns, or to the end of the log |
| CedTopic.CedDataReader.Evaluate | Micro-XRCE-DDS-Agent/src/cpp/middleware/ced/CedEntities.cpp:208-209 | a reader moves one place on and returns what the slot holds, if permitted |
| CedAccess.AccessByKeys | Micro-XRCE-DDS-Agent/src/cpp/middleware/ced/CedMiddleware.cpp:20-51 | who may write, and whose samples reach whom, by the client keys alone |
| CedRuns.LogIsWhatWasPublished | Micro-XRCE-DDS-Agent/src/cpp/middleware/ced/CedEntities.cpp:158-178 | over any run, the log holds every sample published by a client that may write, once, in order, with its writer and its data, and nothing else |
| CedRuns.DeliveredIffReached | Micro-XRCE-DDS-Agent/src/cpp/middleware/ced/CedEntities.cpp:180-253 | over any run without a scan a whole counter turn late, of the samples still retained a reader that has passed one returned it iff its writer reaches the reader |
| CedRuns.ForwardersReadOnlyOrdinaryClients | Micro-XRCE-DDS-Agent/src/cpp/middleware/ced/CedMiddleware.cpp:20-51 | no forwarding loop: over any run, readers of a client whose key has the external prefix return only samples written by ordinary clients of this agent |
| CedRuns.EvaluateKeepsOrderIffNotOvertaken | Micro-XRCE-DDS-Agent/src/cpp/middleware/ced/CedEntities.cpp:204-216 | one wait evaluation leaves every delivery behind the reader's place iff the reader is not overtaken by the ring; the deliveries ascend in either case |
| CedRuns.NextReadBreaksOrderIff | Micro-XRCE-DDS-Agent/src/cpp/middleware/ced/CedEntities.cpp:180-220 | after a wait, and with any samples written since, the scan of the next read breaks the strict order of deliveries iff the wait was overtaken and the ring still holds the sample it read ahead |
| CedRuns.DeliveriesAscendIff | Micro-XRCE-DDS-Agent/src/cpp/middleware/ced/CedEntities.cpp:180-220 | over whole runs of read calls, what every client received ascends strictly iff no scan starts at or before a sample its reader read ahead |
| CedRuns.OrderIsKeptIff | Micro-XRCE-DDS-Agent/src/cpp/middleware/ced/CedEntities.cpp:180-220 | over whole runs, in every state all deliveries ascend and lie behind their readers iff no wait is overtaken |
| CedRuns.ScanSkipsOnlyOverwritten | Micro-XRCE-DDS-Agent/src/cpp/middleware/ced/CedEntities.cpp:188-202 | a scan passes over no retained permitted sample iff the reader is less than a counter turn late, or visibly lapped, or every retained entry the wrapped lag hides is forbidden or delivered |
| CedRuns.EvaluateSkipsOnlyOverwritten | Micro-XRCE-DDS-Agent/src/cpp/middleware/ced/CedEntities.cpp:208-209 | a wait evaluation passes over no retained permitted sample, overtaken or not |
| CedRuns.LossIsBoundedIff | Micro-XRCE-DDS-Agent/src/cpp/middleware/ced/CedEntities.cpp:180-220 | over whole runs, in every state a permitted sample was skipped only if at least h later writes had happened, iff every scan is safe in the sense of ScanSkipsOnlyOverwritten |
| CedRuns.Delivery | Micro-XRCE-DDS-Agent/src/cpp/middleware/ced/CedEntities.cpp:180-220 | whole runs, any writers and readers, three independent parts: readers get only permitted entries; while no scan is a counter turn late, a permitted sample is skipped only after at least h later writes; while no wait is overtaken, each reader returns a strictly ascending run |
| CedRuns.EvaluateReturnsNothingIff | Micro-XRCE-DDS-Agent/src/cpp/middleware/ced/CedEntities.cpp:208-209 | with a permitted unread sample present, an evaluation returns nothing iff the next slot holds a forbidden one or the reader is whole counter turns late |
| CedRuns.ForbiddenSamplesCostEvaluations | Micro-XRCE-DDS-Agent/src/cpp/middleware/ced/CedEntities.cpp:208-209 | with n forbidden samples before the first permitted one, n evaluations return nothing and the next returns that sample |
| CedRuns.WaitSleepsThroughSample | Micro-XRCE-DDS-Agent/src/cpp/middleware/ced/CedEntities.cpp:204-216 | concrete run: a forwarder woken after a forbidden and a permitted sample evaluates once and returns nothing |
| CedRuns.OvertakenWaitDeliversTwice | Micro-XRCE-DDS-Agent/src/cpp/middleware/ced/CedEntities.cpp:180-220 | concrete run with the ring of 16: a read whose scan found an empty topic, and whose wait is overtaken by 17 writes returns a sample that the next read returns again |
| CedTopicManagers.HoldersOfANameMeet | Micro-XRCE-DDS-Agent/src/cpp/middleware/ced/CedEntities.cpp:77-112 | in every reachable state a registration hands out the live topic of that domain and name when there is one, and there is at most one |
| CedTopicManagers.NewTopicIsFresh | Micro-XRCE-DDS-Agent/src/cpp/middleware/ced/CedEntities.cpp:96-110 | a registration makes a new topic iff the name is not listed, and the new topic is other than every topic live in any earlier state of the run |
| CedTopicManagers.TableFollowsLife | Micro-XRCE-DDS-Agent/src/cpp/middleware/ced/CedEntities.cpp:115-134 | a domain is listed iff some live topic is in it; every listener has heard of every live topic and its domain |
| CedTopicManagers.TopicLivesWhileInUse | Micro-XRCE-DDS-Agent/src/cpp/middleware/ced/CedEntities.cpp:77-151 | over any run, the references to a topic are the registrations that handed it out less its releases, and it is live and listed under its name iff there are any |
| CedTopicManagers.ListenersHearBirths | Micro-XRCE-DDS-Agent/src/cpp/middleware/ced/CedEntities.cpp:77-113 | while it listens, a listener hears of each topic and each domain that comes into being once, in order, and of nothing else |
| CedTopicManagers.CedTopicManager.RegisterTopic | Micro-XRCE-DDS-Agent/src/cpp/middleware/ced/CedEntities.cpp:77-113 | the table, the holders and what listeners heard after a registration; the table stays exact |
| CedTopicManagers.CedTopicManager.ReleaseTopic | Micro-XRCE-DDS-Agent/src/cpp/middleware/ced/CedEntities.cpp:148-151 | a release drops one holder; the last one takes the topic out of the table, and its domain with the last topic |
| CedTopicManagers.CedTopicManager.RegisterOnNewDomain | Micro-XRCE-DDS-Agent/src/cpp/middleware/ced/CedEntities.cpp:30-41 | a new listener is told exactly the listed domains; a key already registered keeps its callback |
| CedTopicManagers.CedTopicManager.RegisterOnNewTopic | Micro-XRCE-DDS-Agent/src/cpp/middleware/ced/CedEntities.cpp:49-63 | a new listener is told exactly the listed topics; a key already registered keeps its callback |
| SharedMutexes.LockExclusion | Micro-XRCE-DDS-Agent/include/uxr/agent/utils/SharedMutex.hpp:63-135 | in every reachable state: at most one exclusive holder, the counter counts the shared holders, and while the lock is exclusive every shared holder is the owner's own thread |
| SharedMutexes.NoLostWakeup | Micro-XRCE-DDS-Agent/include/uxr/agent/utils/SharedMutex.hpp:63-135 | a shared waiter is parked only behind another thread's exclusive lock; when nobody holds the lock and somebody is parked, an awake exclusive contender can take it |
| SharedMutexes.FreeLockIsTaken | Micro-XRCE-DDS-Agent/include/uxr/agent/utils/SharedMutex.hpp:63-135 | whenever the lock is free and some lock() call is in progress, some enabled evaluation takes it |
| SharedMutexes.StuckMeansUpgrade | Micro-XRCE-DDS-Agent/include/uxr/agent/utils/SharedMutex.hpp:117-119 | a state without a possible acquisition or release has every holding thread itself waiting for an exclusive lock |
| SharedMutexes.DisciplinedRunsProgress | Micro-XRCE-DDS-Agent/include/uxr/agent/utils/SharedMutex.hpp:112-124 | if exclusive locks are asked for empty-handed, no reachable state is stuck |
| SharedMutexes.UpgradeIsForever | Micro-XRCE-DDS-Agent/include/uxr/agent/utils/SharedMutex.hpp:112-124 | once a thread that holds the lock waits for it exclusively, it holds and waits in every continuation, and no exclusive lock is granted to anybody |
| SharedMutexes.ExclusiveIsGrantedIff | Micro-XRCE-DDS-Agent/include/uxr/agent/utils/SharedMutex.hpp:112-135 | in every reachable state a waiting exclusive call is granted in some continuation iff no holding thread waits for the exclusive lock, and then in one without spurious wake-ups |
| SharedMutexes.UpgradeDeadlocks | Micro-XRCE-DDS-Agent/include/uxr/agent/utils/SharedMutex.hpp:117-119 | four concrete steps of one thread lead to an upgrade that no continuation ends |
| SharedMutexes.ExclusiveUnlockMustWakeAll | Micro-XRCE-DDS-Agent/include/uxr/agent/utils/SharedMutex.hpp:126-135 | waking one instead of all on an exclusive unlock breaks the invariant as soon as two shared waiters are parked; the code's notify_all keeps it |
| SharedMutexes.UnlockWakes | Micro-XRCE-DDS-Agent/include/uxr/agent/utils/SharedMutex.hpp:77-135 | an unlock wakes nobody while shared locks remain, the notified waiter with the last shared lock, everybody with an exclusive lock, and moves nobody else |
| SharedMutexes.UnlockWakesThatMany | Micro-XRCE-DDS-Agent/include/uxr/agent/utils/SharedMutex.hpp:77-135 | the number of waiters an unlock wakes |
| SharedMutexes.SharedMutex.EnterLock | Micro-XRCE-DDS-Agent/include/uxr/agent/utils/SharedMutex.hpp:63-65 | a lock object already locked does nothing; otherwise a contender arrives |
| SharedMutexes.SharedMutex.EvaluatePredicate | Micro-XRCE-DDS-Agent/include/uxr/agent/utils/SharedMutex.hpp:69-73 | one evaluation of the wait predicate and what follows under the mutex is one step of the model |
| SharedMutexes.SharedMutex.UnlockLock | Micro-XRCE-DDS-Agent/include/uxr/agent/utils/SharedMutex.hpp:77-89 | an unlock is one step of the model, or nothing for an unlocked object |
| Roots.Sweep | Micro-XRCE-DDS-Agent/src/cpp/Root.cpp:221-236 | from one false get_next_client to the next, under any interleaved creations, deletions and resets: returned keys ascend strictly, are finitely many, and include every client present throughout |
| Roots.RestOfSweep | Micro-XRCE-DDS-Agent/src/cpp/Root.cpp:221-236 | from any point of a sweep on: keys ascend from the cursor, and every key ahead that stays is returned |
| Roots.CursorStaysLive | Micro-XRCE-DDS-Agent/src/cpp/Root.cpp:184-190 | over any run the iterator is past the end or at a live client |
| Roots.PropertiesAreAnnouncedIff | Micro-XRCE-DDS-Agent/src/cpp/Root.cpp:55-159 | after an accepted creation the client has the announced properties iff it is new, or keeps its session and already had them, or changes its session and announces none |
| Roots.NewSessionLosesProperties | Micro-XRCE-DDS-Agent/src/cpp/Root.cpp:119-131 | concrete input: a client that comes back under a new session id with its properties has lost them |
| Roots.CreationStatus | Micro-XRCE-DDS-Agent/src/cpp/Root.cpp:55-159 | OK iff the key is not zero, the cookie is XRCE and the major version is 1; a wrong key or cookie is invalid data even with a wrong version |
| Roots.AcceptedClientStartsAfresh | Micro-XRCE-DDS-Agent/src/cpp/Root.cpp:55-159 | an accepted client, new or returning, is in the announced session with reset streams; every other client, and everybody on a refusal, stays |
| Roots.Root.CreateClient | Micro-XRCE-DDS-Agent/src/cpp/Root.cpp:55-159 | status and table after a creation, an insertion step of the sweep theorem when accepted; errors change nothing |
| Roots.Root.EraseClient | Micro-XRCE-DDS-Agent/src/cpp/Root.cpp:184-190 | the client goes, the iterator moves on iff it was there: the erasing step of the sweep theorem |
| Roots.Root.DeleteClient | Micro-XRCE-DDS-Agent/src/cpp/Root.cpp:179-207 | OK iff the client was there; table and iterator after it |
| Roots.Root.GetNextClient | Micro-XRCE-DDS-Agent/src/cpp/Root.cpp:221-236 | the client at the iterator, which advances to the next greater key or wraps to the least: the next step of the sweep theorem |
| Roots.Root.Reset | Micro-XRCE-DDS-Agent/src/cpp/Root.cpp:306-316 | no clients, iterator past the end: the clearing step of the sweep theorem |
| Sessions.EndPointsResolveUniquely | Micro-XRCE-DDS-Agent/include/uxr/agent/transport/SessionManager.hpp:58-118 | in every reachable state end point to key to end point is the identity, so no two end points share a key |
| Sessions.KeysMayLoseTheirEndPoint | Micro-XRCE-DDS-Agent/include/uxr/agent/transport/SessionManager.hpp:66-70 | the converse fails: re-establishing a keyed client strips another client of its reverse entry |
| Sessions.EstablishKeepsOtherTwoWayIff | Micro-XRCE-DDS-Agent/include/uxr/agent/transport/SessionManager.hpp:58-99 | establishing another client keeps a key two-way iff that client did not have the key's end point and does not take it |
| Sessions.StepTwoWayIff | Micro-XRCE-DDS-Agent/include/uxr/agent/transport/SessionManager.hpp:58-118 | one event, exactly: when a key goes to its end point and back afterwards |
| Sessions.TwoWayOverRunsIff | Micro-XRCE-DDS-Agent/include/uxr/agent/transport/SessionManager.hpp:58-118 | over whole runs, a key goes to its end point and back iff its last session leaves the key out of the header and no later event strips it |
| Sessions.NeverEstablished | Micro-XRCE-DDS-Agent/include/uxr/agent/transport/SessionManager.hpp:58-118 | a key that was never established resolves to nothing |
| Sessions.SessionManager.EstablishSession | Micro-XRCE-DDS-Agent/include/uxr/agent/transport/SessionManager.hpp:58-99 | both maps after establishing |
| Sessions.SessionManager.DestroySession | Micro-XRCE-DDS-Agent/include/uxr/agent/transport/SessionManager.hpp:101-118 | both maps after destroying; nothing for an unknown end point |
| Processors.CreateClientResolves | Micro-XRCE-DDS-Agent/src/cpp/processor/Processor.cpp:224-267 | after an accepted CREATE_CLIENT the source resolves to the new key iff the session id is at least 128 and to nothing otherwise, the key resolves to the source, a different client of that source is gone |
| Processors.CreateClientFrame | Micro-XRCE-DDS-Agent/src/cpp/processor/Processor.cpp:224-267 | every other client and every other source stay as they were, except a source that resolved to the same key from elsewhere |
| Processors.CreateClientKeepsOwnEntry | Micro-XRCE-DDS-Agent/src/cpp/processor/Processor.cpp:224-267 | the created client gets the entry that a creation makes of the one it had; it is never deleted first |
| Processors.RejectedClientChangesLittle | Micro-XRCE-DDS-Agent/src/cpp/processor/Processor.cpp:224-267 | a rejected CREATE_CLIENT establishes nothing, but a different client its source resolved to is gone with its session |
| Processors.RefusedRequestEvicts | Micro-XRCE-DDS-Agent/src/cpp/processor/Processor.cpp:224-267 | any client created with a keyless session is deleted by a later refused request with another key from its end point |
| Processors.CreatedClientIsReached | Micro-XRCE-DDS-Agent/src/cpp/processor/Processor.cpp:73-90 | the next packet of the created session is routed to the created client, by header key or by source |
| Processors.UnknownSourceReachesNobody | Micro-XRCE-DDS-Agent/src/cpp/processor/Processor.cpp:73-90 | a keyless packet that reaches a client came from the end point that client's key resolves to |
| Processors.CreateClientKeepsConsistent | Micro-XRCE-DDS-Agent/src/cpp/processor/Processor.cpp:224-267 | CREATE_CLIENT keeps the map invariant and never stores the invalid key |
| Processors.DeleteClientResolves | Micro-XRCE-DDS-Agent/src/cpp/processor/Processor.cpp:335-375 | DELETE of a client keeps the invariant, frees its source, and leaves the key's end point behind iff the source was not registered for that key |
| Processors.DeleteClientFrame | Micro-XRCE-DDS-Agent/src/cpp/processor/Processor.cpp:335-375 | DELETE of a client leaves every other client in the table, and its two-way session intact iff it is not the one registered at the source |
| Processors.KeyedClientLeavesItsEndPoint | Micro-XRCE-DDS-Agent/src/cpp/processor/Processor.cpp:335-375 | any client that carries its key in the header leaves its end point behind when created and deleted |
| Processors.DeleteTakesAnotherSession | Micro-XRCE-DDS-Agent/src/cpp/processor/Processor.cpp:335-375 | deleting a keyed client from an end point where another client is registered takes that client's session and leaves it in Root |
| Processors.Processor.ProcessCreateClient | Micro-XRCE-DDS-Agent/src/cpp/processor/Processor.cpp:224-296 | the handler's result, reply status and effect on Root and both maps, including rejected representations |
| Processors.Processor.ProcessDeleteClient | Micro-XRCE-DDS-Agent/src/cpp/processor/Processor.cpp:335-375 | the handler's status and effect for the CLIENT kind |
| Conversions.ObjectIdsAreRawIdsWithKinds | Micro-XRCE-DDS-Agent/include/uxr/agent/utils/Conversion.hpp:24-37 | object ids correspond one to one to twelve-bit raw ids with a kind |
| Conversions.RawIdsAreOrderedPrefixes | Micro-XRCE-DDS-Agent/include/uxr/agent/utils/Conversion.hpp:24-27 | raw ids order like the twelve-bit prefixes they are packed from |
| Conversions.PackedExamples | Micro-XRCE-DDS-Agent/include/uxr/agent/utils/Conversion.hpp:24-55 | an object id and a client key, packed, written out |
| Conversions.ClientKeysAreOrderedNumbers | Micro-XRCE-DDS-Agent/include/uxr/agent/utils/Conversion.hpp:39-55 | client keys correspond one to one to 32-bit numbers, and their byte order is the order of the numbers |
| CedMiddlewares.SuffixedNamesMeet | Micro-XRCE-DDS-Agent/src/cpp/middleware/ced/CedMiddleware.cpp:54-67 | a name with a reference suffix strips back to itself iff the suffix does not occur in the name |
| CedMiddlewares.StripCutsAtFirst | Micro-XRCE-DDS-Agent/src/cpp/middleware/ced/CedMiddleware.cpp:54-67 | a reference is cut at the first place its suffix occurs, and stays whole when there is none |
| CedMiddlewares.DeleteTopicKeepsRegister | Micro-XRCE-DDS-Agent/src/cpp/middleware/ced/CedMiddleware.cpp:260-263 | after deleting a topic the registers still list exactly the topics some entity holds |
| CedMiddlewares.DeleteUndoesCreateTopic | Micro-XRCE-DDS-Agent/src/cpp/middleware/ced/CedMiddleware.cpp:117-135 | creating and deleting a topic restores every map |
| CedMiddlewares.CedMiddleware.CreateParticipantByRef | Micro-XRCE-DDS-Agent/src/cpp/middleware/ced/CedMiddleware.cpp:72-85 | success iff the id is free; the participant map after it |
| CedMiddlewares.CedMiddleware.CreateTopicByRef | Micro-XRCE-DDS-Agent/src/cpp/middleware/ced/CedMiddleware.cpp:117-135 | success iff the participant exists and the id is free; topic map and register after it |
| CedMiddlewares.CedMiddleware.CreatePublisherByXml | Micro-XRCE-DDS-Agent/src/cpp/middleware/ced/CedMiddleware.cpp:145-162 | success iff the participant exists and the id is free; the publisher map after it |
| CedMiddlewares.CedMiddleware.CreateSubscriberByXml | Micro-XRCE-DDS-Agent/src/cpp/middleware/ced/CedMiddleware.cpp:164-181 | success iff the participant exists and the id is free; the subscriber map after it |
| CedMiddlewares.CedMiddleware.CreateDataWriterByRef | Micro-XRCE-DDS-Agent/src/cpp/middleware/ced/CedMiddleware.cpp:183-208 | success iff the publisher exists, the id is free and its participant has a live topic of the stripped name |
| CedMiddlewares.CedMiddleware.CreateDataReaderByRef | Micro-XRCE-DDS-Agent/src/cpp/middleware/ced/CedMiddleware.cpp:218-242 | success iff the subscriber exists, the id is free and its participant has a live topic of the stripped name |
| CedMiddlewares.CedMiddleware.EraseTopic | Micro-XRCE-DDS-Agent/src/cpp/middleware/ced/CedMiddleware.cpp:260-263 | the topic leaves its map, and the register with its last holder |
| ProxyClients.ObjectTableMirrorsMiddleware | Micro-XRCE-DDS-Agent/src/cpp/client/ProxyClient.cpp:85-187 | after any run of creations in all four modes, deletions and releases, an object is in objects_ iff its raw id is in the middleware map of its kind, and the topic registers are exact |
| ProxyClients.ReuseIsIdempotent | Micro-XRCE-DDS-Agent/src/cpp/client/ProxyClient.cpp:129-168 | repeating a successful or matched request with reuse, replace or not, answers OK_MATCHED and changes neither table |
| ProxyClients.DeleteUndoesCreate | Micro-XRCE-DDS-Agent/src/cpp/client/ProxyClient.cpp:719-743 | deleting a just created object restores the object table, all six maps and the registers |
| ProxyClients.CreateObjectFrame | Micro-XRCE-DDS-Agent/src/cpp/client/ProxyClient.cpp:85-173 | a creation touches no other object and no other raw id of any kind |
| ProxyClients.FailedReplaceDeletes | Micro-XRCE-DDS-Agent/src/cpp/client/ProxyClient.cpp:119-126 | a replacement that fails has removed the old object from both sides and nothing else |
| ProxyClients.CreatedEntityMatches | Micro-XRCE-DDS-Agent/src/cpp/middleware/ced/CedMiddleware.cpp:320-400 | a created entity matches the representation it was created from, through the suffix stripping |
| ProxyClients.WriterNeedsLiveTopic | Micro-XRCE-DDS-Agent/src/cpp/client/ProxyClient.cpp:487-543 | a data writer is created iff its publisher exists and some topic, writer or reader still holds a topic of the stripped name under the same participant |
| ProxyHistories.CreationModes | Micro-XRCE-DDS-Agent/src/cpp/client/ProxyClient.cpp:85-173 | Table 7 over whole lives: what each mode answers for an object that exists, by whether the request asks for what the object was made as |
| ProxyHistories.CreationSucceedsIff | Micro-XRCE-DDS-Agent/src/cpp/client/ProxyClient.cpp:225-601 | over whole lives, what a request for a new object answers, by the objects there, its format, and the topics in use by objects of the same participant |
| ProxyHistories.OtherKindsMakeNothing | Micro-XRCE-DDS-Agent/src/cpp/client/ProxyClient.cpp:225-270 | requesters and repliers fail once their participant is found; the remaining kinds succeed without an object |
| ProxyHistories.ParentsByKind | Micro-XRCE-DDS-Agent/src/cpp/client/ProxyClient.cpp:225-270 | writers name a publisher, readers a subscriber, the others a participant, by twelve bits of prefix |
| ProxyHistories.DeletionFrame | Micro-XRCE-DDS-Agent/src/cpp/client/ProxyClient.cpp:719-743 | a deletion takes that object and no other, and the others stay what they were made as |
| ProxyClients.ProxyClient.CreateInMode | Micro-XRCE-DDS-Agent/src/cpp/client/ProxyClient.cpp:85-173 | status and both tables after create_object in any mode |
| ProxyClients.ProxyClient.CreateUnlocked | Micro-XRCE-DDS-Agent/src/cpp/client/ProxyClient.cpp:225-601 | status and both tables after the unlocked creation of any kind |
| ProxyClients.ProxyClient.Delete | Micro-XRCE-DDS-Agent/src/cpp/client/ProxyClient.cpp:175-187 | status and both tables after delete_object |
| ProxyClients.ProxyClient.ReleaseAll | Micro-XRCE-DDS-Agent/src/cpp/client/ProxyClient.cpp:215-218 | release destroys every object once, in some order |
| ProxyClients.ProxyClient.ObjectMatches | Micro-XRCE-DDS-Agent/src/cpp/topic/Topic.cpp:65-92 | the answer of `matched` for each of the six kinds |
| TokenBuckets.ConservationIsExact | Micro-XRCE-DDS-Agent/include/uxr/agent/utils/TokenBucket.hpp:65-111 | grant plus remainder are covered by the tokens before plus the refill, iff the call does not overdraw: it has tokens enough, or its timeout ends less than a millisecond before the last grant, or later |
| TokenBuckets.CallIsExact | Micro-XRCE-DDS-Agent/include/uxr/agent/utils/TokenBucket.hpp:65-111 | a call with a timeout of zero or more, exactly: when it is decided, that it is granted iff the bucket then holds what it asks for, and what is left |
| TokenBuckets.WaitIsTheTimeout | Micro-XRCE-DDS-Agent/include/uxr/agent/utils/TokenBucket.hpp:85-89 | the shortfall wait is never used: its unsigned difference wraps, so a short call always sleeps its whole timeout |
| TokenBuckets.NegativeTimeoutOverdraws | Micro-XRCE-DDS-Agent/include/uxr/agent/utils/TokenBucket.hpp:85-99 | concrete call on a bucket by itself: a timeout that ends before the last grant grants a full second of bytes one millisecond after the bucket was emptied |
| TokenBuckets.RunConserves | Micro-XRCE-DDS-Agent/include/uxr/agent/utils/TokenBucket.hpp:65-111 | over any window of any run of calls none of which overdraws, bytes granted plus tokens left stay within tokens at the start plus the refill |
| TokenBuckets.RateBound | Micro-XRCE-DDS-Agent/include/uxr/agent/utils/TokenBucket.hpp:65-111 | over any such run, those with non-negative timeouts among them, bytes granted stay within rate plus rate times elapsed milliseconds over 1000 |
| TokenBuckets.RunGrantsAtLeast | Micro-XRCE-DDS-Agent/include/uxr/agent/utils/TokenBucket.hpp:65-111 | the other side of RunConserves: while the bucket never runs over, a run grants all the rate allows but for the rounding at each grant |
| TokenBuckets.GrantedWithinASecond | Micro-XRCE-DDS-Agent/include/uxr/agent/utils/TokenBucket.hpp:65-111 | a call for no more than the capacity that ends a second or more after the last grant is granted |
| TokenBuckets.TokenBucket.ConsumeTokens | Micro-XRCE-DDS-Agent/include/uxr/agent/utils/TokenBucket.hpp:65-111 | grant, bucket and wake-up time of one call, in the 64-bit arithmetic of the code |
| Readers.ReadTask | Micro-XRCE-DDS-Agent/include/uxr/agent/reader/Reader.hpp:129-177 | for any answers of the surroundings and any deadline, the thread runs as the turns below say, up to where it stops or the answers end; with the rate bound, the samples handed on, and the reasons to stop |
| Readers.ThreadStopsIff | Micro-XRCE-DDS-Agent/include/uxr/agent/reader/Reader.hpp:151-176 | when the thread stops, exactly: the limit of samples modulo 65536, the deadline, or not being to run any more, and not while a sample waits |
| Readers.SamplesAreHandedOn | Micro-XRCE-DDS-Agent/include/uxr/agent/reader/Reader.hpp:154-171 | the samples read are those of the successful reads; the accepted ones are the first of them, one for each offer taken; at most one waits |
| Readers.SampleIsAskedFor | Micro-XRCE-DDS-Agent/include/uxr/agent/reader/Reader.hpp:153-163 | a sample just read is asked for with the time left at its read, until granted; reads and offers take time and nothing from the bucket |
| Readers.OfferedIffStocked | Micro-XRCE-DDS-Agent/include/uxr/agent/reader/Reader.hpp:158 | a sample is offered iff the bucket holds its bytes when its call is decided; what the bucket loses, and until when the thread sleeps |
| Readers.AcceptedKeepsRate | Micro-XRCE-DDS-Agent/include/uxr/agent/reader/Reader.hpp:129-177 | the rate bound on accepted bytes, under every deadline |
| Readers.TimeoutIsTimeLeft | Micro-XRCE-DDS-Agent/include/uxr/agent/reader/Reader.hpp:136-153 | the timeout is 100 milliseconds or the whole milliseconds left to the deadline, towards zero |
| Readers.DeadlineIsSecondsAway | Micro-XRCE-DDS-Agent/include/uxr/agent/reader/Reader.hpp:146-148 | the deadline is max_elapsed_time seconds away, or none for zero |
| Readers.Deliver | Micro-XRCE-DDS-Agent/include/uxr/agent/reader/Reader.hpp:157-170 | the middle loop, turn by turn: the sample is asked for until granted, then offered |
| Readers.Offer | Micro-XRCE-DDS-Agent/include/uxr/agent/reader/Reader.hpp:160-163 | the inner loop, turn by turn: at most one successful write, and it is the last |
| Readers.TimeoutCall | Micro-XRCE-DDS-Agent/include/uxr/agent/reader/Reader.hpp:158 | one bucket call whose timeout does not end before the last grant conserves, and keeps the clock in range |
| Readers.TimeoutReachesDeadline | Micro-XRCE-DDS-Agent/include/uxr/agent/reader/Reader.hpp:153 | a timeout computed while the last grant is not past the deadline does not end before that grant, also when it is negative |
| Schedulers.QueueWithPutBack | Micro-XRCE-DDS-Agent/src/cpp/transport/Server.cpp:202-222 | over any run of producers, sender, server errors and stops: sent packets, then queued ones, are in push order; at most one packet over capacity |
| Schedulers.PacketsAreConserved | Micro-XRCE-DDS-Agent/src/cpp/transport/Server.cpp:202-222 | every pushed packet is exactly once among sent, given up, dropped, queued or held |
| Schedulers.PacketsAreSettled | Micro-XRCE-DDS-Agent/src/cpp/transport/Server.cpp:202-222 | one packet is sent for each send that succeeds, one given up for each that fails on its destination, and none for a server error |
| Schedulers.OnlyTheOldestIsDropped | Micro-XRCE-DDS-Agent/include/uxr/agent/scheduler/FCFSScheduler.hpp:79-91 | what a push drops is older than everything that stays queued |
| Schedulers.PushKeepsDropsAscendingIff | Micro-XRCE-DDS-Agent/include/uxr/agent/scheduler/FCFSScheduler.hpp:79-91 | one push keeps drops in push order iff it drops nothing, or the first packet ever, or one newer than the last drop |
| Schedulers.DropsAscendIff | Micro-XRCE-DDS-Agent/src/cpp/transport/Server.cpp:202-222 | over any run, packets are dropped in push order iff no packet put back behind a newer drop is itself dropped |
| Schedulers.PutBackReordersDrops | Micro-XRCE-DDS-Agent/src/cpp/transport/Server.cpp:212-217 | at every capacity there is a run that drops the second packet before the first |
| Schedulers.FCFSScheduler.Push | Micro-XRCE-DDS-Agent/include/uxr/agent/scheduler/FCFSScheduler.hpp:79-91 | the deque after a push, at, under or over capacity |
| Schedulers.FCFSScheduler.PushFront | Micro-XRCE-DDS-Agent/include/uxr/agent/scheduler/FCFSScheduler.hpp:94-99 | the deque after a put-back |
| Schedulers.FCFSScheduler.Pop | Micro-XRCE-DDS-Agent/include/uxr/agent/scheduler/FCFSScheduler.hpp:104-119 | the oldest element iff running; the front is never taken from an empty deque |
| Cdr.EndShifts | Micro-XRCE-DDS-Agent/src/cpp/types/XRCETypes.cpp:1003-1028 | what any items occupy depends on the offset only modulo 4 |
| Cdr.HoldsLocally | Micro-XRCE-DDS-Agent/include/uxr/agent/message/OutputMessage.hpp:168-182 | items stay readable in any buffer that agrees up to where they end |
| Cdr.ReadsString | Micro-XRCE-DDS-Agent/src/cpp/types/XRCETypes.cpp:919-930 | a printed string is parsed back, at any offset |
| XrceTypes.OptionalPropertiesSizeFallsShort | Micro-XRCE-DDS-Agent/src/cpp/types/XRCETypes.cpp:1015-1021 | the size of optional properties is exact without properties and at least four bytes short with them |
| XrceTypes.ClientRepSizeIsExactIff | Micro-XRCE-DDS-Agent/src/cpp/types/XRCETypes.cpp:1003-1041 | CLIENT_Representation is sized as printed iff it has no properties and starts at an even offset |
| XrceTypes.AgentRepSizeIsExactIff | Micro-XRCE-DDS-Agent/src/cpp/types/XRCETypes.cpp:1114-1145 | AGENT_Representation is sized as printed iff it has no properties |
| XrceTypes.ClientRepReadsBack | Micro-XRCE-DDS-Agent/src/cpp/types/XRCETypes.cpp:1028-1060 | a printed CLIENT_Representation, properties included, is parsed back |
| XrceTypes.RepresentationSizeIsExact | Micro-XRCE-DDS-Agent/src/cpp/types/XRCETypes.cpp:1484-1527 | the three format unions are sized as printed at every offset |
| XrceTypes.RepresentationReadsBack | Micro-XRCE-DDS-Agent/src/cpp/types/XRCETypes.cpp:1509-1549 | the three format unions are parsed back, unknown discriminators included |
| XrcePayloads.VariantSizeIsExactIff | Micro-XRCE-DDS-Agent/src/cpp/types/XRCETypes.cpp:4934-5036 | ObjectVariant is sized as printed iff it has no properties and a client starts at an odd offset |
| XrcePayloads.VariantReadsBack | Micro-XRCE-DDS-Agent/src/cpp/types/XRCETypes.cpp:4988-5086 | a printed ObjectVariant of any kind is parsed back |
| XrcePayloads.InfoReadsBack | Micro-XRCE-DDS-Agent/src/cpp/types/XRCETypes.cpp:5907-5940 | a printed ObjectInfo is parsed back |
| XrcePayloads.InfoSizeFallsShort | Micro-XRCE-DDS-Agent/src/cpp/types/XRCETypes.cpp:5886-5905 | what follows the configuration in an ObjectInfo cannot make up for the bytes its size misses |
| XrcePayloads.SpecReadsBack | Micro-XRCE-DDS-Agent/src/cpp/types/XRCETypes.cpp:6254-6289 | a printed ReadSpecification is parsed back, with or without filter and delivery control |
| XrcePayloads.AddressReadsBack | Micro-XRCE-DDS-Agent/src/cpp/types/XRCETypes.cpp:809-855 | a printed TransportAddress of any format is parsed back |
| XrcePayloads.PayloadSizeIsExactIff | Micro-XRCE-DDS-Agent/src/cpp/types/XRCETypes.cpp:7340-7421 | at the even offsets where payloads start, size and printer agree iff no representation in the payload carries properties and no client representation is created as an object |
| XrcePayloads.PropertiesBreakTheSize | Micro-XRCE-DDS-Agent/src/cpp/types/XRCETypes.cpp:7600-7614 | a STATUS_AGENT with an empty sequence of properties is sized as 11 bytes and printed as 16 |
| XrcePayloads.CreatedClientBreaksTheSize | Micro-XRCE-DDS-Agent/src/cpp/types/XRCETypes.cpp:7405-7419 | a CREATE of a client representation without properties is sized as 21 bytes and printed as 22 |
| XrcePayloads.PayloadReadsBack | Micro-XRCE-DDS-Agent/src/cpp/types/XRCETypes.cpp:7340-7900 | every supported payload is parsed back and the cursor stops where the printer stopped; only raw data consults the submessage length |
| Messages.MessageRoundTrip | Micro-XRCE-DDS-Agent/include/uxr/agent/message/InputMessage.hpp:86-152 | parsing the printed bytes gives the header as transmitted, every subheader and payload in order, and then no further submessage |
| Messages.Transmit | Micro-XRCE-DDS-Agent/include/uxr/agent/message/OutputMessage.hpp:91-182 | through both classes: a message is sent iff it fits the buffer, and what is sent is received |
| Messages.DataRoundTripsIff | Micro-XRCE-DDS-Agent/src/cpp/processor/Processor.cpp:398-410 | raw data survives iff its length fits the sixteen-bit submessage length |
| Messages.HeaderSizeIsExact | Micro-XRCE-DDS-Agent/src/cpp/types/MessageHeader.cpp:93-107 | a header takes 8 bytes with a key and 4 without, and its size says so |
| Messages.HeaderReadsBack | Micro-XRCE-DDS-Agent/src/cpp/types/MessageHeader.cpp:109-129 | a printed header is parsed back as far as it is transmitted |
| Messages.SubHeaderReadsBack | Micro-XRCE-DDS-Agent/src/cpp/types/SubMessageHeader.cpp:101-117 | a printed subheader is parsed back |
| Messages.SizeDependsOnAlignment | Micro-XRCE-DDS-Agent/include/uxr/agent/message/OutputMessage.hpp:98 | the size computed at offset 0 is what the payload takes at every multiple of four |
| Messages.ReplyFits | Micro-XRCE-DDS-Agent/src/cpp/processor/Processor.cpp:853-890 | a hand-sized buffer takes the reply iff the header sized carries the key if the one sent does, and is filled iff both do or neither does |
| Messages.BuildReply | Micro-XRCE-DDS-Agent/src/cpp/processor/Processor.cpp:116-157 | each reply the processor sizes by hand (ACKNACK, STATUS_AGENT, STATUS, INFO, HEARTBEAT) is appended successfully for every header |
| Messages.OutputMessage.constructor | Micro-XRCE-DDS-Agent/include/uxr/agent/message/OutputMessage.hpp:31-40 | the message holds its header iff the buffer takes it |
| Messages.OutputMessage.AppendSubmessage | Micro-XRCE-DDS-Agent/include/uxr/agent/message/OutputMessage.hpp:92-103 | true iff the extended message fits; then the buffer holds it, earlier submessages untouched |
| Messages.OutputMessage.Serialize | Micro-XRCE-DDS-Agent/include/uxr/agent/message/OutputMessage.hpp:169-182 | true iff all items fit; then the buffer holds them and nothing before them changed |
| Messages.InputMessage.PrepareNextSubmessage | Micro-XRCE-DDS-Agent/include/uxr/agent/message/InputMessage.hpp:86-95 | the next subheader at the next multiple of four, or false |
| Messages.InputMessage.GetPayload | Micro-XRCE-DDS-Agent/include/uxr/agent/message/InputMessage.hpp:98-101 | the payload at the cursor, which moves past it |
| WireFormats.HeaderOnWire | Micro-XRCE-DDS-Agent/src/cpp/types/MessageHeader.cpp:109-118 | session_id, stream_id, little-endian sequence_nr, and the client key iff the session id is below 128, byte by byte |
| WireFormats.SubmessageOnWire | Micro-XRCE-DDS-Agent/include/uxr/agent/message/OutputMessage.hpp:154-166 | at the next multiple of four: id, flags, little-endian length, payload |
| WireFormats.PayloadOnWire | Micro-XRCE-DDS-Agent/src/cpp/types/XRCETypes.cpp:7349-7878 | where the parts of each of the thirteen payloads stand |
| WireFormats.RequestOnWire | Micro-XRCE-DDS-Agent/src/cpp/types/XRCETypes.cpp:6001-6005 | request_id, object_id |
| WireFormats.ResultStatusOnWire | Micro-XRCE-DDS-Agent/src/cpp/types/XRCETypes.cpp:5225-5229 | status, implementation_status |
| WireFormats.AckNackOnWire | Micro-XRCE-DDS-Agent/src/cpp/types/XRCETypes.cpp:8597-8602 | first_unacked_seq_num, nack_bitmap, stream_id |
| WireFormats.HeartbeatOnWire | Micro-XRCE-DDS-Agent/src/cpp/types/XRCETypes.cpp:8676-8681 | first and last unacked_seq_nr, stream_id |
| WireFormats.TimeOnWire | Micro-XRCE-DDS-Agent/src/cpp/types/XRCETypes.cpp:97-101 | seconds, nanoseconds |
| WireFormats.DeliveryControlOnWire | Micro-XRCE-DDS-Agent/src/cpp/types/XRCETypes.cpp:6155-6161 | max_samples, max_elapsed_time, max_bytes_per_second, min_pace_period |
| WireFormats.ClientOnWire | Micro-XRCE-DDS-Agent/src/cpp/types/XRCETypes.cpp:1028-1041 | the fields of CLIENT_Representation, with the flag and the properties |
| WireFormats.AgentOnWire | Micro-XRCE-DDS-Agent/src/cpp/types/XRCETypes.cpp:1135-1145 | the fields of AGENT_Representation |
| WireFormats.RepresentationOnWire | Micro-XRCE-DDS-Agent/src/cpp/types/XRCETypes.cpp:1509-1527 | format 1, 2 or 3 and the reference, XML or octets with their length |
| WireFormats.KindsAndFormats | Micro-XRCE-DDS-Agent/src/cpp/types/XRCETypes.cpp:4988-5036 | which object kinds have which representation and know which formats |
| WireFormats.VariantOnWire | Micro-XRCE-DDS-Agent/src/cpp/types/XRCETypes.cpp:4988-5036 | the kind, the representation, and the domain or parent behind it |
| WireFormats.AddressOnWire | Micro-XRCE-DDS-Agent/src/cpp/types/XRCETypes.cpp:809-830 | the four address formats with their ports |
| WireFormats.AgentActivityOnWire | Micro-XRCE-DDS-Agent/src/cpp/types/XRCETypes.cpp:5305-5309 | availability, number of addresses, addresses |
| WireFormats.InfoOnWire | Micro-XRCE-DDS-Agent/src/cpp/types/XRCETypes.cpp:5907-5919 | flags, configuration and activity |
| WireFormats.SpecOnWire | Micro-XRCE-DDS-Agent/src/cpp/types/XRCETypes.cpp:6254-6268 | stream, format, and the optional filter and delivery control with their flags |
| WireFormats.RepliesAre | Micro-XRCE-DDS-Agent/src/cpp/processor/Processor.cpp:103-157 | the submessage ids, flags and agent representation of the replies |
| WireFormats.HeaderParsesIff | Micro-XRCE-DDS-Agent/src/cpp/types/MessageHeader.cpp:120-129 | a header is parsed iff its four or eight bytes are there |
| WireFormats.SubmessageParsesIff | Micro-XRCE-DDS-Agent/include/uxr/agent/message/InputMessage.hpp:86-95 | another submessage is found iff four bytes are left at the next multiple of four |
| WireFormats.FlagParsesIff | Micro-XRCE-DDS-Agent/src/cpp/types/XRCETypes.cpp:1043-1060 | a flag is 0 or 1, anything else is an error |
| WireFormats.StringParsesIff | Micro-XRCE-DDS-Agent/src/cpp/types/XRCETypes.cpp:925-930 | a string is parsed iff as many bytes follow as its length says |
| WireFormats.FixedPayloadParsesIff | Micro-XRCE-DDS-Agent/include/uxr/agent/message/InputMessage.hpp:138-152 | payloads of fixed layout are parsed iff all their bytes are there |
| WireFormats.TimesParseIff | Micro-XRCE-DDS-Agent/src/cpp/types/XRCETypes.cpp:8721-8775 | the time payloads are parsed iff all their bytes are there |
| WireFormats.DataParsesIff | Micro-XRCE-DDS-Agent/src/cpp/processor/Processor.cpp:398-412 | raw data is parsed iff the submessage length is four or more and as many bytes are there |

## Left out

- Sessions, reliable and best-effort streams, fragments, fill_acknack and fill_heartbeat: only the payloads they fill are modelled.
- Transports, sockets, thread start and stop, the error handler, logging, argument parsing, XML, discovery, the Fast DDS and Fast RTPS middlewares, InternalClient.
- fastcdr internals: a value is aligned to its width and stored little-endian, on a little-endian host; buffers stay below 4 GiB; a string is its length, its bytes and a NUL, and the cut at a NUL inside a string is not modelled.
- The position and the bytes that a failed append leaves in the buffer, and the cursor a failed parse leaves.
- Submessages built by append_raw_payload and append_fragment, raw headers and raw payloads.
- DataRepresentation, the OBJK binary representations, the bodies of DATAWRITER_ActivityInfo (8-aligned) and DATAREADER_ActivityInfo, and the WRITE_DATA and DATA formats other than plain data.
- WRITE_DATA with a submessage length below 4, where the code's unsigned subtraction wraps: the model rejects it.
- CedTopic.LegalCapacity: the ring size is a parameter (1 to 32768, dividing 65536); the code compiles it to 16.
- The timing of a topic read's wait: a wait is modelled by its predicate evaluations, at any moments.
- errcode outputs of topic reads and writes.
- A CedSubscriber refers to its participant's slot in the participant map, which dangles after that participant is deleted; the model keeps the participant itself.
- Object handles outstanding across a deletion: an object's destructor runs when it is erased from the table.
- The race between the last release of a shared topic and its unregistration: destruction is one step.
- The listeners' callbacks are modelled by what they are told, not by what they do.
- Requester and replier entities, which the embedded middleware does not create; object kinds of 16 and more; the ERR_RESOURCES branches, which no input reaches.
- SeqNum's `int - SeqNum` operator, which computes the reversed difference; the assigning operators are modelled by the values they assign.
- Roots.ProxyClient: the streams of a session are one counter that a session reset clears; the alive/dead state of a client is not modelled.
- Wire representations with optional properties: parsing them back is proved, the equality of their sizes is false and its exact condition is proved.
- TokenBuckets.RateBound: for byte rates 2 to 65535 with capacity equal to the rate, and clock readings of 63 bits of nanoseconds; rate 1 and the unlimited rate are left out.
- Readers.ReadTask: every finite beginning of a run, driven by the answers of read_fn, write_fn and the clock; reader start and stop are left out; max_samples of 0 has no bound on samples.
- Schedulers.FCFSScheduler.Pop: the part after the wait; the capacity is at least 1.
- Cascading deletion of an object's children, which the code does not implement.
