# Kunlun, modelled and proved

Kunlun is a distributed file store. A master proxy places replicas of vnodes on storage devices, keeps them in
step by heartbeat and sync, and tells clients where to read and write. This project models its core in Dafny and
proves what the code guarantees, what it does not, and exactly when.

## What is modelled

**The replica protocol** (src/proxynode). The master's state is its devices, with their vnode_list, sync_list and
syncing_list, and its vnodes, with version, two cursors and replicas. Joins that copy, joins that move, heartbeats,
sync-downs and address requests are steps on it.

- `ProxyTypes`, `NodeInfo`, `Protocol`: the values and the steps as functions. A step that would follow a null
  pointer, leave a container or divide by zero is a `Fault`.
- `NodeObjects`, `WriteAddress`, `ProxyMaster`: the same as objects with methods that update fields in loops, each
  method proved equal to its step.
- `Invariant`, `Steps`, `HeartbeatSteps`, `SyncDownSteps`, `JoinSteps`, `JoinInduction`, `JoinLoops`, `Counting`,
  `Statuses`: one invariant, kept by every step.
- `Runs`, `Guarantees`: what holds after every run, in terms of lists and replicas only.
- `HeartbeatMerge`, `SyncOutcome`, `JoinOutcome`: what a whole heartbeat, sync-down or join makes of every vnode and of
  every list, stated from the state before it, without the handlers' own functions.
- `Interleaving`, `InterleavedRuns`: the heartbeat and the sync-down split at their locks, and what holds however the
  sections of several of them mix with each other and with all other messages.
- `HeartbeatFaults`: exactly which mixtures make a heartbeat fault.
- `Faults`, `FailingRuns`: when the master faults, what the omissions of the source lead to, and runs that show it.
- `Rebalance`, `JoinShare`: the arithmetic of a moving join and the random selection.
- `StorageNode`, `RoundTrip`: the storage node's side of a heartbeat, one round trip, and runs of the master together
  with all its nodes.
- `NodeAgreement`: in those runs, when the statuses on a node are those of its replicas on the master.
- `SlaveMerge`: a slave proxy's merge of a report.
- `FileCheck`: the reconciliation of files between the two ends of a sync.

**The infrastructure** (src/common).

- `MsgQueue`: the message queue and its event under any interleaving, the condition variable explicit.
- `Framing`, `Packetizer`: frames on a byte stream, and the object that reads them chunk by chunk.
- `Md5`, `Md5Standard`, `Hex`: the incremental digest against RFC 1321, for any block transformation; what the standard
  says byte by byte; the digest as text.
- `Namespace`: which vnode a path belongs to, and how many keys each vnode gets.

## Where the source departs from what it is for

Each departure is kept in the model. Where a property needs the evident intent, a flag switches the one statement, and
a theorem says exactly when the code as written meets the property. `ProxyTypes.AS_WRITTEN` has all flags off.

| source | as written | proved |
|---|---|---|
| src/proxynode/node_info.cpp:117 | the write scan walks to the read cursor | no write request ever succeeds, and it faults exactly when replica_count is positive and the read cursor is past the end of a list that is not empty (`WriteAddress.WriteRequestShared`, `Faults.WriteFaults`); one read is enough (`FailingRuns.ReadThenWrite`) |
| src/proxynode/vnode_balancer.cpp:206 | a draw indexes the donor's list, not the working copy | a turn short of its quota has looked at every vnode exactly when every draw was the last position (`Rebalance.TurnTriesAllIffAlwaysLast`); with line 302 below repaired, two joins in which a turn misses one (`FailingRuns.SecondVnodeNeverTried`) |
| src/proxynode/vnode_balancer.cpp:302 | the new replica is overwritten with NULL | a moving join faults exactly when the weights sum to zero or some donor over its quota draws a vnode that passes the tests for moving; else it only admits the device (`Faults.MoveJoinWithoutReplica`, `FailingRuns.SecondJoinFaults`) |
| src/proxynode/proxy_msg_parser.cpp:164 | a finished move stays in the donor's vnode_list | with line 302 above repaired, every later run with a heartbeat of that donor faults (`Faults.StaleDeviceIsDoomed`, `FailingRuns.MoveThenHeartbeat`); as long as that line is as written, no move gets so far (`FailingRuns.NeverStale`) |
| src/proxynode/proxy_msg_parser.cpp:870 | a lagging ACTIVE replica may be chosen as its own source | exactly when the read scan stops at it (`Faults.SelfSync`, `FailingRuns.SyncsToItself`), and only then a heartbeat tells a status that the master does not have (`HeartbeatMerge.ReplyTellsStatus`) |
| src/proxynode/proxy_msg_parser.cpp:743 | a heartbeat works on a copy of vnode_list made before its first lock section | with finished moves erased, or no moves at all, every heartbeat can still end without a fault exactly if no move ended while a heartbeat of its source was still to look for the moved vnode (`HeartbeatFaults.HeartbeatsEndIffInPlace`); a run in which one did (`FailingRuns.MoveEndsDuringHeartbeat`). The storage node as shipped sends its sync-downs from the thread that sends its heartbeats, after it merged the reply (src/storagenode/thread_beat_heart.cpp:221-296): the run needs a second connection of the same device, or another sender |
| src/proxynode/proxy_msg_parser.cpp:1088 | a vnode dropped by a slave stays in the vnode_list | the index stays correct exactly when nothing was dropped (`SlaveMerge.SlaveMergeIs`) |
| src/common/stream_msg_packetizer.cpp:102 | the header offset is scaled by the header's size | messages arrive exactly when no chunk but the last ends inside a header (`Framing.DeliveryAsWritten`) |
| src/common/stream_msg_packetizer.cpp:121 | an empty body never completes | all messages arrive exactly when none has an empty body (`Framing.Delivery`) |
| src/common/hash.cpp:225 | final does not restore the buffer | the object still represents its message exactly when fewer than 56 bytes are pending, or they equal what final left (`Md5.StillRepresents`) |
| src/common/hash.cpp:179 | the block loop's counter has 32 bits | an update returns exactly when the counter does not wrap (`Md5.MD5.TransformRest`) |
| src/common/hash.cpp:376 | the string hash skips every second byte | it is the hash of the others (`Namespace.BkdrHash`), so that a path's key is made of the high hexadecimal digits of its digest (`Namespace.KeyIsSum`) and the low ones do not matter (`Namespace.LowDigitsDoNotMatter`) |
| src/storagenode/storage_msg_parser.cpp:133 | the status is compared with the version, and an unset buffer is freed | the test answers as the repaired one, whatever is checked, exactly when the vnode is new, or its version differs from the one sent and that is not 2 (`FileCheck.StatusIsNoVersion`) |
| src/storagenode/storage_msg_parser.cpp:217 | every asked path goes to the first slot of the reply | the reply is right exactly when it asks for at most one file (`FileCheck.OneSlot`) |
| src/storagenode/storage_msg_parser.cpp:1074 | the hash of a changed file is never updated | a second check asks again for exactly those files (`FileCheck.SecondCheck`) |

## What a caller is assumed to do

Nothing about reports, sync-downs or requests is assumed in the runs: what faults, faults, and `Faults.RepairedFaults`
lists the messages that make the repaired master fault. The round trip and the merges speak of reports in which ids
differ, which is what a storage node sends.

## Model

| member | source | states |
|---|---|---|
| NodeInfo.ScanComplete | src/proxynode/node_info.cpp:67-91 | from any cursor the read scan finds a replica exactly when an ACTIVE one exists, and it is ACTIVE |
| NodeInfo.ScanIs | src/proxynode/node_info.cpp:62-88 | of the ACTIVE replicas the scan chooses the one that a walk round the ring from the cursor meets first, and leaves the cursor right behind it |
| NodeInfo.ScanFair | src/proxynode/node_info.cpp:53-92 | with k ACTIVE replicas, k scans in a row choose each of them exactly once, from any cursor, and then the round repeats |
| NodeInfo.SetStatusIs | src/proxynode/node_info.cpp:136-154 | overwriting the status found for a device changes that device's status and no other |
| NodeInfo.DestroyIs | src/proxynode/node_info.cpp:171-187 | destroying the replica on a device removes it and leaves every other device's |
| NodeObjects.ReadReplicaIs | src/proxynode/node_info.cpp:53-92 | a read scan answers the ACTIVE replica that comes next from its cursor, moves the cursor right behind it and changes nothing else |
| NodeObjects.ReadsAreFair | src/proxynode/node_info.cpp:53-92 | with k ACTIVE replicas, k read scans of the vnode in a row answer each of them once, from any cursor, and the next one begins the same round |
| NodeObjects.DeviceInfo.EraseVnode | src/proxynode/node_info.cpp:10-22 | the first occurrence goes, or the list is unchanged and -1 returned |
| NodeObjects.DeviceInfo.PopSyncing | src/proxynode/node_info.cpp:24-42 | the first syncing event for the vnode is removed and returned, or none is |
| NodeObjects.VnodeInfo.GetReadReplica | src/proxynode/node_info.cpp:53-92 | the in-place scan is the one of ReadReplicaIs and ReadsAreFair: the ACTIVE replica that comes next, the cursor right behind it |
| NodeObjects.VnodeInfo.GetWriteReplica | src/proxynode/node_info.cpp:94-134 | the same with the write cursor; as written, it looks at one replica only, or leaves the list |
| NodeObjects.VnodeInfo.GetReplicaInfo | src/proxynode/node_info.cpp:136-154 | position of the device's replica, or the list's end |
| NodeObjects.VnodeInfo.TestDiffZones | src/proxynode/node_info.cpp:156-169 | true exactly when no replica's device is in the zone |
| NodeObjects.VnodeInfo.DestroyReplica | src/proxynode/node_info.cpp:171-187 | the list without the device's first replica |
| WriteAddress.ReadAddress | src/proxynode/proxy_msg_parser.cpp:274-293 | a read request gets an ACTIVE replica exactly when there is one, the one that comes next from the cursor, and leaves the cursor right behind it |
| WriteAddress.WriteRequestOwn | src/proxynode/proxy_msg_parser.cpp:294-336 | with its own cursor a write request succeeds exactly when min(ACTIVE, replica_count) is 2 or more, with that many different ACTIVE replicas |
| WriteAddress.WriteRequestInTurn | src/proxynode/proxy_msg_parser.cpp:294-336 | a granted one offers the ACTIVE replicas in turn, from the one its cursor comes to next, and where it leaves the cursor |
| WriteAddress.WriteRequestShared | src/proxynode/node_info.cpp:94-134 | as written it never succeeds, and faults exactly when replica_count is positive and the read cursor is past the end of the replicas |
| WriteAddress.WriteAddresses | src/proxynode/proxy_msg_parser.cpp:294-336 | the loop in place equals the request on values, so both of the above hold of it |
| ProxyMaster.Master.constructor | src/proxynode/node_container.cpp:304-416 | the booted master: no devices, all vnodes empty at version 0 |
| ProxyMaster.Master.SendEvents | src/proxynode/proxy_msg_parser.cpp:744-792 | the whole pending list goes out and becomes syncing, as the step says |
| ProxyMaster.Master.AskSync | src/proxynode/proxy_msg_parser.cpp:862-908 | a lagging replica: ONLINE without an ACTIVE one, else WAIT_SYNC with a source and its event |
| ProxyMaster.Master.AcceptVersion | src/proxynode/proxy_msg_parser.cpp:917-928 | the branch in place equals the step of which HeartbeatMerge.ListedReport says what becomes of the replica: ACTIVE with the vnode's version, unchanged with a higher one, which the vnode takes |
| ProxyMaster.Master.MergeReport | src/proxynode/proxy_msg_parser.cpp:795-935 | one reported vnode, all branches, equal to the step |
| ProxyMaster.Master.ReplyUnreported | src/proxynode/proxy_msg_parser.cpp:938-959 | listed vnodes that were not reported, sources excepted |
| ProxyMaster.Master.MergeDevice | src/proxynode/proxy_msg_parser.cpp:717-1001 | the whole heartbeat in place equals the step on the state |
| ProxyMaster.Master.AnswerRead | src/proxynode/proxy_msg_parser.cpp:274-293 | a read request in place equals its step, of which ReadReplicaIs says which replica is answered; an unknown vnode is a fault |
| ProxyMaster.Master.AnswerReads | src/proxynode/proxy_msg_parser.cpp:274-293 | read requests in a row, in place, are answered as the scans of ReadsAreFair |
| ProxyMaster.Master.AnswerWrite | src/proxynode/proxy_msg_parser.cpp:294-336 | a write request in place equals its step, with its answer and its faults |
| ProxyMaster.Master.FinishSync | src/proxynode/proxy_msg_parser.cpp:149-175 | one finished sync in place equals the step |
| ProxyMaster.Master.FinishSyncs | src/proxynode/proxy_msg_parser.cpp:149-176 | the loop over all finished syncs equals the step |
| ProxyMaster.Master.CopyVnode | src/proxynode/vnode_balancer.cpp:40-134 | one vnode of a copying join: refused by zone, first replica, or copied from a source |
| ProxyMaster.Master.CopyVnodes | src/proxynode/vnode_balancer.cpp:28-138 | the copying join in place equals the step |
| ProxyMaster.Master.MoveVnode | src/proxynode/vnode_balancer.cpp:206-333 | one look at a donor's vnode, all reasons to pass it over, and the move |
| ProxyMaster.Master.MoveFromDonor | src/proxynode/vnode_balancer.cpp:200-339 | the selection loop over the working copy equals the step, whatever is drawn |
| ProxyMaster.Master.MoveVnodes | src/proxynode/vnode_balancer.cpp:174-340 | all donors' turns equal the step |
| ProxyMaster.Master.GetTotalReplicaCount | src/proxynode/node_container.cpp:261-288 | all vnodes listed, and all weights |
| ProxyMaster.Master.JoinDevice | src/proxynode/proxy_msg_parser.cpp:486-498 | copies while there are fewer devices than replica_count, moves afterwards: the step of which JoinOutcome and JoinShare say what it does and how much it moves |
| ProxyMaster.Master.SlaverMergeDevice | src/proxynode/proxy_msg_parser.cpp:1015-1097 | the slave's merge in place equals its step |
| HeartbeatSteps.HeartbeatKeeps | src/proxynode/proxy_msg_parser.cpp:717-1001 | a heartbeat faults exactly when vnode_list names a vnode without a replica there, and keeps the invariant, lists and places |
| SyncDownSteps.SyncDownOneKeeps | src/proxynode/proxy_msg_parser.cpp:151-173 | a finished sync keeps the invariant |
| Runs.UniqueSyncing | src/proxynode/node_info.cpp:24-42 | no two syncing events of a device are for one vnode, so the lookup by vnode is unambiguous |
| Runs.SyncDownKeeps | src/proxynode/proxy_msg_parser.cpp:149-176 | a sync-down faults exactly unless it names different vnodes that the device is syncing, and keeps the invariant |
| JoinSteps.CopyOneKeeps | src/proxynode/vnode_balancer.cpp:40-134 | copying one vnode never faults and keeps the invariant |
| JoinInduction.MoveInduction | src/proxynode/vnode_balancer.cpp:174-340 | what every single move keeps, all donors' turns keep, whatever is drawn |
| JoinInduction.TurnsInduction | src/proxynode/vnode_balancer.cpp:174-340 | what each donor's turn hands on to the next holds at the end of the join |
| JoinInduction.QuotaInduction | src/proxynode/vnode_balancer.cpp:200-339 | what each look keeps while the quota counts down, the selection loop ends with, at a quota not below 0 |
| JoinLoops.JoinKeeps | src/proxynode/proxy_msg_parser.cpp:486-498 | any join keeps the invariant; repaired, it faults exactly when a moving join's weights sum to zero |
| Counting.MoveJoinCounts | src/proxynode/vnode_balancer.cpp:285-333 | a moving join leaves every vnode's number of replicas that are not MOVE_SRC unchanged |
| Guarantees.RunInv | src/proxynode/proxy_msg_parser.cpp:30-74 | every run of joins, heartbeats, sync-downs, read and write requests that does not fault keeps the invariant, in every edition, the one as written included |
| Guarantees.OneEventPerSource | src/proxynode/proxy_msg_parser.cpp:869-908 | after any run a device has exactly one event for a vnode, pending and syncing together, if its replica is COPY_SRC or MOVE_SRC, and none otherwise |
| Guarantees.OneEventPerWaiting | src/proxynode/vnode_balancer.cpp:285-333 | a replica is WAIT_SYNC exactly when some other device has an event to it, and then one device has |
| Guarantees.HolderRemains | src/proxynode/proxy_msg_parser.cpp:160-173 | a vnode with replicas always has one that is ACTIVE, COPY_SRC or MOVE_SRC |
| Guarantees.ZonesDiffer | src/proxynode/node_info.cpp:156-169 | replicas that are not MOVE_SRC are on devices of different zones |
| Guarantees.PlacementHolds | src/proxynode/vnode_balancer.cpp:132-133 | one replica per device, at most min(devices, replica_count) that stay, each listed exactly once by its device; nothing else listed when finished moves are erased |
| Guarantees.VersionIsHighest | src/proxynode/proxy_msg_parser.cpp:912-921 | a vnode's version is the highest ever accepted for it, or 0 |
| Guarantees.LaggardIsNotActive | src/proxynode/proxy_msg_parser.cpp:837-935 | no replica whose first report lagged behind the vnode's version is ACTIVE when its heartbeat is done |
| Guarantees.ReadRequestsAreFair | src/proxynode/proxy_msg_parser.cpp:274-293 | in any state of the master, the next k read requests for a vnode with k ACTIVE replicas are answered with each of them once, and the request after them as the first |
| HeartbeatMerge.ListedReport | src/proxynode/proxy_msg_parser.cpp:827-935 | one lock section for a reported vnode: sources and waiting replicas stay; with the vnode's version ACTIVE; a higher one is taken and the status kept; with a lower one ONLINE if none is ACTIVE, else WAIT_SYNC with the next ACTIVE one as COPY_SRC and its event; and the unit carries the status the replica has then, save a replica that is its own source |
| HeartbeatMerge.HeartbeatMerges | src/proxynode/proxy_msg_parser.cpp:743-1000 | after any run, a whole heartbeat from the state before it: each listed and reported vnode is merged so with its first report, every other vnode stays; every device's lists and events, in order |
| HeartbeatMerge.ReplyTellsStatus | src/proxynode/proxy_msg_parser.cpp:837-959 | each unit of the reply that is not OFFLINE carries the status the replica has when the heartbeat is done, exactly unless the replica lagged and came next itself: then COPY_SRC there and WAIT_SYNC told |
| SyncOutcome.SyncDownOutcome | src/proxynode/proxy_msg_parser.cpp:149-176 | after any run, a whole sync-down: which replicas are ACTIVE or gone afterwards, that nothing else changed, and which events and vnodes left the device's lists |
| JoinOutcome.CopyJoinOutcome | src/proxynode/vnode_balancer.cpp:28-138 | after any run, a whole copying join: what each vnode becomes by zone, first replica, and next ACTIVE source; which vnodes the joining device lists and which syncs each device is asked for, in order |
| JoinOutcome.MoveJoinOutcome | src/proxynode/vnode_balancer.cpp:174-340 | a whole moving join from any state: each vnode the joining device lists left one donor, that had it ACTIVE and passed the zone test, with one event; no other vnode and nothing else changed |
| Faults.RepairedFaults | src/proxynode/proxy_msg_parser.cpp:30-74 | with the joins, the erase and the write cursor repaired, after any run a message faults exactly if malformed; a heartbeat never does |
| Faults.MoveJoinWithoutReplica | src/proxynode/vnode_balancer.cpp:302 | as written, a moving join faults exactly when the weights sum to zero or, in the state before it, some donor over its quota looks at a vnode that is ACTIVE there and passes the zone test; else it only admits the device |
| Faults.JoinMovesFromCopy | src/proxynode/vnode_balancer.cpp:187-302 | when draws index the working copy, that is: some donor over its quota lists such a vnode, whatever is drawn |
| Faults.LooksAtPositions | src/proxynode/vnode_balancer.cpp:205-206 | as written, a donor looks at the vnodes its list holds at the drawn positions |
| Faults.WriteFaults | src/proxynode/node_info.cpp:117 | as written, in any state a write request faults exactly when the read cursor is past the end of the replicas |
| Faults.MoveLeavesStale | src/proxynode/proxy_msg_parser.cpp:164-169 | without the erase, a finished move leaves an entry without a replica |
| Faults.StaleThroughHandle | src/proxynode/proxy_msg_parser.cpp:164-169 | such an entry outlives every message, and makes the device's heartbeat fault |
| Faults.StaleDeviceIsDoomed | src/proxynode/proxy_msg_parser.cpp:825-827 | every later run with a heartbeat of that device faults |
| Faults.SelfSync | src/proxynode/proxy_msg_parser.cpp:870-908 | a lagging replica becomes COPY_SRC with an event to itself exactly when the read scan stops at it: only if ACTIVE, and always if it is the only one |
| FailingRuns.MoveThenHeartbeat | src/proxynode/proxy_msg_parser.cpp:164-169 | with the new replica kept and nothing erased: join, join, heartbeat and sync-down go well, and the next heartbeat faults |
| FailingRuns.SecondJoinFaults | src/proxynode/vnode_balancer.cpp:302 | as written, the second of these joins faults already |
| FailingRuns.NeverStale | src/proxynode/proxy_msg_parser.cpp:164-169 | with moves erased, or as written, no run reaches a listed vnode without its replica |
| FailingRuns.SyncsToItself | src/proxynode/proxy_msg_parser.cpp:869-908 | one device that reports version 5 and then 3 is told to sync to itself |
| FailingRuns.ReadThenWrite | src/proxynode/node_info.cpp:117 | as written, a join and a read make the next write request fault |
| FailingRuns.MoveEndsDuringHeartbeat | src/proxynode/proxy_msg_parser.cpp:743-959 | with every statement repaired: the end of a donor's move between two sections of its heartbeat makes the heartbeat fault |
| Interleaving.UninterruptedIsAtomic | src/proxynode/proxy_msg_parser.cpp:743-959 | the sections of a heartbeat, one after the other with nothing in between, are the heartbeat in one step |
| Interleaving.SyncInTwo | src/proxynode/proxy_msg_parser.cpp:151-173 | the two sections of a finished sync, one right after the other, are the sync in one step |
| Interleaving.SectionKeeps | src/proxynode/proxy_msg_parser.cpp:744-935 | every section, of a heartbeat or of the end of a sync, keeps the invariant of the lists together with the events that handlers hold |
| InterleavedRuns.CourseKeeps | src/proxynode/proxy_msg_parser.cpp:30-74 | so does every course of sections, joins, sync-downs and requests, in any order and every edition |
| InterleavedRuns.OneEventWithHands | src/proxynode/proxy_msg_parser.cpp:893-908 | however sections mix, a device has exactly one event for a vnode, in its lists and in handlers' hands together, if its replica is a source, and none otherwise |
| InterleavedRuns.OneWaitsWithHands | src/proxynode/vnode_balancer.cpp:285-333 | however they mix, a replica is WAIT_SYNC exactly when some other device owes an event to it, in lists or hands, and then exactly one does |
| InterleavedRuns.VersionAlways | src/proxynode/proxy_msg_parser.cpp:912-921 | however they mix, a version is the highest ever accepted for the vnode, or 0 |
| InterleavedRuns.HolderAlways | src/proxynode/proxy_msg_parser.cpp:160-173 | however they mix, a vnode with replicas has one with the data |
| InterleavedRuns.ApartAlways | src/proxynode/node_info.cpp:156-169 | however they mix, staying replicas lie in different zones, one for each device, and are at most min(devices, replica_count) |
| InterleavedRuns.EmptyHandsInv | src/proxynode/proxy_msg_parser.cpp:744-935 | whenever no handler holds an event, the state satisfies the invariant of uninterrupted runs |
| HeartbeatFaults.SectionFaults | src/proxynode/proxy_msg_parser.cpp:775-945 | in every system with the invariant a section faults exactly when the vnode it looks for has no replica on the device; the end of a sync never does |
| HeartbeatFaults.GoesCalm | src/proxynode/proxy_msg_parser.cpp:160-173 | while every heartbeat finds what it will look for, no section faults, and that changes exactly by a section that ends a move of a vnode some heartbeat of its source is still to look for |
| HeartbeatFaults.HeartbeatsEndIffInPlace | src/proxynode/proxy_msg_parser.cpp:743-959 | when vnode_list is exact: after any course every heartbeat, left alone, ends without a fault exactly if no such section was in the course |
| HeartbeatFaults.NoSectionFaults | src/proxynode/proxy_msg_parser.cpp:743-959 | and then no next section of any heartbeat or sync faults |
| HeartbeatFaults.SomeNeverEnds | src/proxynode/proxy_msg_parser.cpp:743-959 | after a course with such a section some heartbeat is done in no continuation, whatever follows |
| InterleavedRuns.RunsAreCourses | src/proxynode/proxy_msg_parser.cpp:30-74 | every state an uninterrupted run reaches is reached by a course |
| Rebalance.QuotasSuffice | src/proxynode/vnode_balancer.cpp:171-187 | the quotas of all donors sum to at least avg * weight of the joining device |
| Rebalance.DonorKeepsItsShare | src/proxynode/vnode_balancer.cpp:187-199 | in one turn a donor gives the joining device at most size - avg * weight vnodes, none if that is not positive, and keeps its list |
| Rebalance.MarksWithinQuota | src/proxynode/vnode_balancer.cpp:187-339 | over a whole moving join at most that many of the donor's replicas become MOVE_SRC |
| Rebalance.JoinerGetsItsShare | src/proxynode/vnode_balancer.cpp:171-340 | drawing from the working copy, a moving join gives the joining device at least avg * weight vnodes, or ends with a donor over its quota none of whose vnodes could be moved |
| Rebalance.TurnExhausts | src/proxynode/vnode_balancer.cpp:203-339 | drawing from the working copy, a turn ends with the quota met or no vnode of the donor movable |
| Rebalance.CoveredIffAlwaysLast | src/proxynode/vnode_balancer.cpp:205-206 | draws bounded by what is left reach all positions exactly when each is the last one |
| Rebalance.TurnTriesAllIffAlwaysLast | src/proxynode/vnode_balancer.cpp:205-206 | as written, a turn short of its quota looked at every vnode exactly when every draw was the last position |
| Rebalance.NoneMovedTwice | src/proxynode/vnode_balancer.cpp:236-251 | after a moving join the joining device lists no vnode twice |
| JoinShare.TruncatedIs | src/proxynode/vnode_balancer.cpp:176 | for all signs, the average is the one quotient whose remainder is less than the divisor and has the sign of the dividend |
| JoinShare.MarksWithinShare | src/proxynode/vnode_balancer.cpp:174-339 | with q * total <= count < (q + 1) * total, or its like for negative totals, no donor of a moving join marks more than max(0, listed - q * weight) vnodes MOVE_SRC |
| JoinShare.JoinerListsItsShare | src/proxynode/vnode_balancer.cpp:174-340 | with the same q and draws from the working copy, the joining device lists at least q times its weight, or some donor lists more than q times its own and has none left that could move |
| JoinShare.TotalCountIsReplicas | src/proxynode/node_container.cpp:261-288 | the total over the devices' lists is the number of replicas of all vnodes, when nothing stale is listed |
| FailingRuns.SecondVnodeNeverTried | src/proxynode/vnode_balancer.cpp:200-339 | with the new replica kept and the draws as written: in the state a first join of two vnodes leads to, the joining device is owed two, and two zero draws look at the first vnode twice; the second could move and is never looked at |
| FailingRuns.TwoJoins | src/proxynode/vnode_balancer.cpp:200-339 | the run of two joins from the start that ends with only one vnode moved |
| Statuses.DrainIs | src/proxynode/proxy_msg_parser.cpp:746-792 | all pending events become syncing in order, each announced with its replica's status and its destination |
| Statuses.RunUsual | src/proxynode/proxy_protocol.h:19-42 | in no run does a replica become INIT or OFFLINE |
| StorageNode.VnodeContainer.At | src/storagenode/vnode_info.cpp:49-64 | the entry at a position, none outside the list |
| StorageNode.VnodeContainer.GetVnode | src/storagenode/vnode_info.cpp:66-77 | position of the first entry with the id |
| StorageNode.VnodeContainer.AddVnode | src/storagenode/vnode_info.cpp:79-90 | appends |
| StorageNode.VnodeContainer.DeleteVnode | src/storagenode/vnode_info.cpp:169-186 | removes the first entry with the id, if any |
| StorageNode.BeatHeart.ReportVnodeInfo | src/storagenode/thread_beat_heart.cpp:420-432 | the report is ids, statuses and versions in list order |
| StorageNode.BeatHeart.MergeVnodeStatus | src/storagenode/thread_beat_heart.cpp:464-528 | OFFLINE deletes, a known id takes the status, another is added at version 0: the merge of which MergeReplyIds and MergeReplyEntries say what it leaves |
| StorageNode.BeatHeart.HandleReply | src/storagenode/thread_beat_heart.cpp:222-281 | the loop merges every unit in order and queues one order per source status |
| StorageNode.MergeReplyIds | src/storagenode/thread_beat_heart.cpp:464-528 | merging a reply without double ids leaves unique ids: those affirmed, and of the others those not put OFFLINE |
| StorageNode.MergeReplyEntries | src/storagenode/thread_beat_heart.cpp:464-528 | after merging a reply without double ids each entry has the unit's status, with its old version or 0 if new, or is as before if the reply does not affirm it |
| StorageNode.AwaitingIs | src/storagenode/storage_msg_parser.cpp:123-170 | a file check leaves the vnode waiting with the version sent, added if it was not there, and every other entry as before |
| RoundTrip.HeartbeatAnswers | src/proxynode/proxy_msg_parser.cpp:744-959 | no id is answered twice; which ids are answered, which of them OFFLINE, and the sync orders in order |
| RoundTrip.RoundTripConverges | src/storagenode/thread_beat_heart.cpp:221-281 | after the merge the node's ids are unique, and equal vnode_list exactly when the node had every vnode it was already syncing |
| RoundTrip.HeartbeatConverges | src/storagenode/thread_beat_heart.cpp:133-281 | in all runs of the master with its nodes, after a heartbeat the node's ids are unique and equal vnode_list |
| RoundTrip.HeartbeatSucceeds | src/proxynode/proxy_msg_parser.cpp:717-1001 | and with finished moves erased it never faults |
| NodeAgreement.StatusesTold | src/storagenode/thread_beat_heart.cpp:133-281 | in all joint runs, after a heartbeat each vnode the node is not syncing has the status of its replica on the master, exactly unless that is its own source, and an ACTIVE one that was reported has the vnode's version; one it is syncing is as before |
| NodeAgreement.StatusesAgree | src/storagenode/thread_beat_heart.cpp:133-281 | when no file check came for a vnode the node was syncing, all statuses on the node agree after its heartbeat, exactly unless a replica is its own source |
| NodeAgreement.CheckDisturbs | src/storagenode/storage_msg_parser.cpp:130-138 | a file check that does come for one makes node and master disagree, in all joint runs |
| SlaveMerge.SlaveMergeIs | src/proxynode/proxy_msg_parser.cpp:1015-1097 | the device's replicas are exactly those reported, with status and version, other devices' unchanged; when it faults; the index stays correct exactly when dropped vnodes are erased or none was dropped |
| SlaveMerge.SlaveRuns | src/proxynode/proxy_msg_parser.cpp:1003-1098 | in every run of a slave each device lists each of its replicas once, and nothing else when dropped vnodes are erased |
| SlaveMerge.DroppedThenTold | src/proxynode/proxy_msg_parser.cpp:1061-1064 | as written, a vnode dropped and later reported again makes the slave fault |
| MsgQueue.StepKeeps | src/common/event.cpp:22-84 | every atomic section keeps the accounting and the wakeups, and pop never meets an empty queue |
| MsgQueue.EveryRun | src/common/msg_queue.cpp:110-152 | under any interleaving: popped then queued is pushed, no wakeup is lost, and with a semaphore the length is signals plus acquired plus not yet signalled |
| MsgQueue.NothingStranded | src/common/msg_queue.cpp:110-120 | when a thread sleeps and all others sleep or are outside, no message waits |
| MsgQueue.StrandedWithoutSemaphore | src/common/event.cpp:70-73 | without the semaphore mode a message can be left to a sleeper |
| MsgQueue.Monitor.Push | src/common/msg_queue.cpp:122-139 | the section equals its step and keeps the invariant |
| MsgQueue.Monitor.SignalSet | src/common/event.cpp:25-40 | the section equals its step and keeps the invariant |
| MsgQueue.Monitor.SignalWakeup | src/common/event.cpp:25-40 | the wakeup keeps the invariant, and wakes a sleeper when there is one |
| MsgQueue.Monitor.SignalTest | src/common/event.cpp:66-73 | keeps the invariant; the loop is left only with a message in the queue, and the thread sleeps only without a signal |
| MsgQueue.Monitor.Pop | src/common/msg_queue.cpp:141-152 | the section equals its step, keeps the invariant and returns the front |
| MsgQueue.QueueArr.GetByRobin | src/common/msg_queue.h:107-116 | the queue whose turn it is; the cursor wraps |
| Framing.SerializerRoundTrip | src/common/common_protocol.h:50-104 | 64-bit and 32-bit signed numbers are read back as written |
| Framing.BytesOfValue | src/common/common_protocol.h:50-104 | bytes read as a number are written back the same |
| Framing.ToBytesAt | src/common/common_protocol.h:80-104 | each byte of a serialized number is its digit in base 256, the highest first |
| Framing.LayoutIs | src/common/common_protocol.h:10-15 | a frame is the body's length in eight bytes, highest first, the command, the status and the body |
| Framing.RestWaits | src/common/stream_msg_packetizer.cpp:100-128 | what is left over is unfinished: read again it gives no message and is left over again |
| Framing.ParseSplit | src/common/stream_msg_packetizer.cpp:95-166 | reading a stream in two parts is reading it at once |
| Framing.ChunksDoNotMatter | src/common/stream_msg_packetizer.cpp:60-167 | with byte offsets messages and leftover depend on the bytes only, not on the chunks |
| Framing.ParseEncoded | src/common/stream_msg_packetizer.cpp:95-166 | reading encoded messages gives those before the first empty body, and how it ends |
| Framing.Delivery | src/common/stream_msg_packetizer.cpp:95-166 | for any chunks exactly the messages arrive, in order, with nothing left, if and only if no body is empty |
| Framing.HeaderCutBreaks | src/common/stream_msg_packetizer.cpp:102-108 | as written, a chunk ending inside a header breaks the reader if another follows; otherwise all is the same |
| Framing.DeliveryAsWritten | src/common/stream_msg_packetizer.cpp:98-112 | as written, the messages arrive exactly when no body is empty and no header is cut |
| Packetizer.StreamMsgPacketizer.HeaderRound | src/common/stream_msg_packetizer.cpp:98-120 | the header's missing bytes are taken in place, and the body allocated when it is complete |
| Packetizer.StreamMsgPacketizer.BodyRound | src/common/stream_msg_packetizer.cpp:121-165 | part of the body, or the rest and the message delivered, or a loop that takes nothing |
| Packetizer.StreamMsgPacketizer.Work | src/common/stream_msg_packetizer.cpp:95-166 | the in-place reader of a chunk delivers exactly the messages of pending and new bytes, in turn over the queues, and keeps the rest |
| Packetizer.StreamMsgPacketizer.WorkAll | src/common/stream_msg_packetizer.cpp:57-169 | the same for all chunks of a stream: message i goes to queue (start + i) mod n |
| Md5.WordRoundTrip | src/common/hash.cpp:320-345 | encode and decode undo each other |
| Md5.CountIsBits | src/common/hash.cpp:166-171 | m_count is eight times the length, modulo 2^64, through the carry |
| Md5.UpdateTakesIn | src/common/hash.cpp:158-193 | an update whose counter does not wrap takes its input in, however the message was cut |
| Md5.DigestIs | src/common/hash.cpp:198-228 | the digest is that of the message taken in, which Md5Standard.DigestAsBytes ties to RFC 1321 byte by byte, and which message the object represents afterwards |
| Md5Standard.DigestAsBytes | src/common/hash.cpp:108-228 | with the only padding that sections 3.1 and 3.2 of RFC 1321 allow, the state whose bytes section 3.3 gives, and one transformation for each block, the digest is the last state's four words in order, low-order bytes first |
| Md5Standard.EmptyDigest | src/common/hash.cpp:108-228 | the digest of the empty message is one transformation of that state with 0x80 and 63 zeros |
| Md5Standard.InitialBytes | src/common/hash.cpp:114-117 | the first state is 01 23 45 67 89 ab cd ef fe dc ba 98 76 54 32 10 |
| Md5Standard.OnlyPadding | src/common/hash.cpp:210-219 | one bit, zeros up to 56 bytes modulo 64 and no further, the length in bits modulo 2^64, low-order byte first: there is one such padding |
| Md5.StillRepresents | src/common/hash.cpp:224-226 | it is still the same message exactly when fewer than 56 bytes were pending or they equal what is left in the buffer |
| Md5.SessionIs | src/common/hash.cpp:96-228 | any sequence of updates and digests: it fails exactly when an update overruns, and else every digest, exactly |
| Md5.SessionIsRight | src/common/hash.cpp:96-228 | digests asked for in time are those of everything taken in so far |
| Md5.UpdatesThenDigest | src/common/hash.cpp:96-228 | from reset on, a session of updates that do not overrun and one digest gives exactly the digest of all parts together |
| Md5.SecondDigest | src/common/hash.cpp:96-105 | a repeated digest is that of what the first one left |
| Md5.SecondDigestForgets | src/common/hash.cpp:210-226 | with 56 bytes pending that is another message |
| Md5.MD5.Reset | src/common/hash.cpp:108-119 | represents the empty message |
| Md5.MD5.TransformRest | src/common/hash.cpp:179-182 | the loop over whole blocks, and when its 32-bit counter fails |
| Md5.MD5.Update | src/common/hash.cpp:158-193 | the in-place update equals the update on values |
| Md5.MD5.Pad | src/common/hash.cpp:213-216 | the first update of final, in place |
| Md5.MD5.AppendLength | src/common/hash.cpp:210-219 | the second, with the count from before the first |
| Md5.MD5.Final | src/common/hash.cpp:198-228 | the in-place final equals that on values: digest, state and count restored, buffer not |
| Md5.MD5.GetDigest | src/common/hash.cpp:96-105 | with the flag off, as every other method leaves it, computes the digest and leaves it off; with the flag on, gives the last result again |
| Md5.MD5.ToString | src/common/hash.cpp:347-351 | the digest as 32 digits with a zero behind them, if and only if the text has room for 33 bytes |
| Md5.MD5.UpdateFile | src/common/hash.cpp:128-151 | what was read before the end, or before a failed read, is taken in, and which of the two it was |
| Md5.ReadWhole | src/common/hash.cpp:128-151 | a file whose reads all succeed is taken in whole |
| Hex.Bin2Hex | src/common/common_types.h:54-77 | in place: the text and zeros behind it, if and only if there is room |
| Hex.Hex2Bin | src/common/common_types.h:87-131 | in place: the bytes, if and only if there are enough characters and all are digits |
| Hex.HexRoundTrip | src/common/common_types.h:54-131 | bytes written as text are read back, and text read as bytes is written back |
| Namespace.BkdrHash | src/common/hash.cpp:365-380 | the polynomial hash of every second byte, modulo 2^64 |
| Namespace.HashIsSum | src/common/hash.cpp:365-380 | the hash is the sum of the bytes, each times the power of 131 of its distance from the end, modulo 2^64 |
| Namespace.KeyIsSum | src/common/hash.cpp:398-429 | a path's key is the sum over its digest of each high digit's character times 131^(15 - i), modulo 2^64 and then modulo the number of keys |
| Namespace.LowDigitsDoNotMatter | src/common/hash.cpp:365-429 | paths whose digests agree in all high digits have the same key |
| Namespace.StretchGoesTo | src/common/hash.cpp:430-431 | the keys of stretch b go to vnode (b + 1) mod c |
| Namespace.LoadIs | src/common/hash.cpp:427-431 | exactly how many keys each vnode gets |
| Namespace.EvenShares | src/common/hash.cpp:427-431 | at least floor(n / c) each; all excess on vnode (c + 1) mod c when it fits; loads differ by less than c |
| Namespace.NameSpaceHash.GetVnodeId | src/common/hash.cpp:398-432 | succeeds exactly when the count is between 1 and the number of keys and the digest can take the path, with the vnode of the path's key, which it also states as the sum of KeyIsSum |
| FileCheck.DbSuffix | src/storagenode/storage_msg_parser.cpp:979-981 | the test on the last dot is the test for the suffix |
| FileCheck.CheckAllIs | src/storagenode/storage_msg_parser.cpp:193-224 | all entries are checked exactly when each can be, and then exactly the needed ones are asked for, in order |
| FileCheck.Reconciles | src/storagenode/storage_msg_parser.cpp:193-236 | afterwards the recorded data paths are the reported ones, and exactly the missing or different files are asked for |
| FileCheck.FailureIs | src/storagenode/storage_msg_parser.cpp:193-224 | the first entry that cannot be checked ends the check, with an error for a database that cannot be opened and else by a null pointer; what is on record then |
| FileCheck.RepairedCheck | src/storagenode/storage_msg_parser.cpp:118-306 | repaired, the reply asks for nothing if the vnode has the version sent, and else for exactly the needed paths, each in its slot, in order |
| FileCheck.SecondCheck | src/storagenode/storage_msg_parser.cpp:1074-1081 | the same check again asks for exactly the files that were on record with another hash |
| FileCheck.OneSlot | src/storagenode/storage_msg_parser.cpp:217-221 | as written the reply is right exactly when it asks for at most one file |
| FileCheck.StatusIsNoVersion | src/storagenode/storage_msg_parser.cpp:130-138 | the test as written answers as the one on versions, whatever is checked, exactly when the vnode is new, or its version differs from the one sent and that is not 2 |
| FileCheck.TbHashCode.QueryAll | src/sqlite/tb_hashcode.cpp:110-128 | every recorded path once |
| FileCheck.StorageMsgParser.DoDataFileCheck | src/storagenode/storage_msg_parser.cpp:1055-1114 | a missing record is inserted; asks when the hash on record differs |
| FileCheck.StorageMsgParser.DoFileHashcodeCheck | src/storagenode/storage_msg_parser.cpp:970-1004 | database or data file by suffix; a path without a dot breaks |
| FileCheck.StorageMsgParser.CheckEntries | src/storagenode/storage_msg_parser.cpp:193-224 | the loop over the request: records, slots of the reply, and what nobody reported |
| FileCheck.StorageMsgParser.FileCheckHandle | src/storagenode/storage_msg_parser.cpp:118-306 | the whole handler in place: vnode, records, unlinked files and reply |

## Left out

- Runs.Handle: each message is one atomic step. The lock sections of heartbeats are interleaved in InterleavedRuns.
- Interleaving.Next: a join and a request are one section each. A join holds the device lock from its totals to its end, so no section that takes this lock falls inside it; the sections that take only the vnode lock (a status read for an event, a report without a new event, an unreported vnode, the end of a sync) could fall between two of its vnodes. A finished sync is two sections, the one that takes the event and finds the replicas under the lock, and the one that sets the two statuses after giving it back; that another section may fall between the two assignments is not modelled. A waiting replica's status is told as of its section; the source reads it again after the lock is given back.
- Protocol.MoveOne: a join that gives up half-way (a listed vnode without a replica) is a Fault; the rollback of destroy_all_replicas_info, which leaves events to the deleted device behind, is not modelled.
- Protocol.Join: an address that joins twice gets two devices, of which only the first is addressed; the lookup of a device by address is not modelled, a device is named by its handle.
- Protocol.Quota: counts, weights and versions are unbounded integers; overflow of 32-bit and 64-bit sums is not modelled.
- SlaveMerge.SlaveBeat: takes the units of the report as given; as written the caller computes their address with the size of a pointer (src/proxynode/proxy_msg_parser.cpp:694) and reads from a wrong offset.
- MsgQueue.Step: push and pop are atomic steps on the queue; the source guards them with two different mutexes, and what a std::queue does under both at once is not modelled.
- Packetizer.StreamMsgPacketizer.StartBody: allocation of a body always succeeds; a length that no memory can hold is not modelled.
- Md5.Transform: the 64 rounds on one block are a parameter; what is proved holds for any.
- FileCheck.CheckOne: paths name files of the vnode being checked, so one table stands for the database; statements longer than 256 characters, and quotes in paths, are not modelled.
- rand() is any stream of numbers; time, sockets, epoll, threads, directories, configuration, logging and the client classes are not modelled.
- Failures of locks and of memory allocation, and the code that runs after them.
- delete_node, merge_node, merge_vnode, node_vol_cmp and the growth of the containers by realloc: not called, or no state worth proving.
