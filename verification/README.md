# Verified models of skynet and Redis 3.2.3

Models of the parts of the skynet actor runtime and of the Redis 3.2.3 it vendors whose correctness is a
property of whole histories or an exact inverse, with proofs. `dafny verify dfyconfig.toml` covers the whole
project.

| files | what they model |
|---|---|
| `ClusterProtocol.dfy` | Redis Cluster epochs and failover elections, as nodes that exchange messages |
| `ClusterSlots.dfy` | the slot table with its bitmaps, and how claims spread |
| `Scheduler.dfy`, `SchedulerProgress.dfy`, `MessageQueue.dfy`, `HandleTable.dfy`, `HandleNames.dfy` | skynet services, their queues, the global run queue, reference counts, handles and names |
| `Timer.dfy` | the hierarchical timing wheel, refining a plain list of due times |
| `SocketBuffer.dfy` | the two-priority write buffer of a TCP socket |
| `AofRewrite.dfy`, `AofHandoff.dfy` | the rewrite buffer and the hand-over between server and rewriting child |
| `Stm.dfy`, `StmProgress.dfy` | the reader/writer spin lock, the reference-counted copies it guards, and what reads and updates give |
| `Netpack.dfy` | framing of byte streams, pending packages in hash chains, the package ring |
| `SeriFormat.dfy`, `Seri.dfy`, `LuaTable.dfy` | the Lua value serializer: format, block chain, cursor, and how tables are cut in two parts |
| `Sharedata.dfy` | shared read-only tables: two-pass filling, lookup, traversal |
| `Bson.dfy` | decoding, indexing and in-place replacement of BSON fields |
| `DiffieHellman.dfy`, `Des.dfy`, `Sha1Spec.dfy`, `Sha1.dfy` | modular powers in 64-bit arithmetic, DES, SHA-1 and HMAC |
| `Arith.dfy`, `Bits.dfy`, `Collections.dfy`, `Endian.dfy`, `Rings.dfy`, `Words.dfy` | shared facts |

Protocols are state machines whose steps are the lock-protected regions, atomic operations or message
deliveries of the source; a history (`IsRun`) is any sequence of enabled steps, so statements about histories
hold for every interleaving. That things do happen is stated as what a thread can bring about by its own steps
(`Can`), from every state of every history. Code that updates objects is a class whose methods are tied to a specification
function or machine. What the outside world decides (results of `write` and `read`, order and loss of
messages, addresses of allocations, which thread moves) is a parameter or a free choice. Assertions of the
source appear as `assert` or as statements proved. Atomics are sequentially consistent; epochs and clocks of
the protocols are unbounded unless the source's wrap-around matters, and then it is written out.

Some promises turned out to be false as they stand; for each there is the failing case and the condition.

* At most one winner per epoch: votes that arrive after their candidate has rescheduled are still counted, so
  any two nodes that are not voters can win the same epoch (`ClusterProtocol.LateVotesElectTwo`); without more
  it holds exactly in clusters with at most one such node (`ClusterProtocol.SafeExactly`). It holds in every
  history where votes arrive while the candidate waits for them (`ClusterProtocol.AtMostOneWinner`).
* Order-independent slot claims: the header of an UPDATE raises its sender's configEpoch without taking in its
  slots, so a later UPDATE about that sender is dropped (`ClusterSlots.TwoReports`). The order does not matter
  exactly if the best claimant of every slot pings or is silent (`ClusterSlots.OrderIndependentExactly`).
* The rewritten append only file is complete exactly if the last read of the child does not fail with bytes left
  in the pipe (`AofHandoff.LosesWhatTheLastReadLeft`, `AofHandoff.FailedReadLoses`); the code does not look at
  how that read ended.
* `powmodp` reduces its base only when it is greater than P, so P to the power 1 stays P
  (`DiffieHellman.PIsNotReduced`); it is the power modulo P exactly otherwise (`DiffieHellman.PowModP`). In the
  same way `lreplace` truncates integers written to an INT32 field (`Bson.Int32Truncates`, `Bson.ReadsBack`), and
  the SHA-1 bit counter can miss for chunks of 2^29 bytes or more (`Sha1.FirstChunkMiscounted`,
  `Sha1.CountIsRight`).

Where code and comment disagree the code is modelled: `clusterDelNodeSlots` returns 16384, not the number of
slots deleted.

## Model

| member | source | states |
|---|---|---|
| `ClusterProtocol.AtMostOneWinner` | redis/redis-3.2.3/src/cluster.c:2704-2869 | In every history where each vote is delivered at most once and before its candidate reschedules, two candidates that reached the quorum in the same epoch are the same node |
| `ClusterProtocol.RunsAreFair` | redis/redis-3.2.3/src/cluster.c:2466-2566 | In every such history: epochs are bounded, each voter has granted at most one vote per epoch, no candidate has counted more votes than it received for its election, and every recorded winner has the votes of more than half of the voters in the network |
| `ClusterProtocol.LateVotesElectTwo` | redis/redis-3.2.3/src/cluster.c:1928-1940 | Without the timing condition the property is false for every cluster in which everybody knows everybody, with at least one voter, and any two nodes c and d that are not voters: some history ends with both winning the same epoch, because votes that arrive after a reschedule are still counted |
| `ClusterProtocol.SafeExactly` | redis/redis-3.2.3/src/cluster.c:2704-2869 | In such a cluster every reachable state has at most one winner per epoch exactly if at most one node is not a voter |
| `ClusterProtocol.OnlySlavesWin` | redis/redis-3.2.3/src/cluster.c:2733-2745 | In every history voters stay masters and only nodes that are not voters win |
| `ClusterProtocol.TwoWinnersOfThree` | redis/redis-3.2.3/src/cluster.c:2770-2790 | A concrete case: one voter and two slaves |
| `ClusterProtocol.WinsInTime` | redis/redis-3.2.3/src/cluster.c:2826-2862 | From any state where some majority of the voters, however small, can still vote in the next epoch, a waiting candidate can get just their votes and win it |
| `ClusterProtocol.WinnerOutranks` | redis/redis-3.2.3/src/cluster.c:2844-2862 | In every history the winner of an election is a master whose configEpoch is at least the epoch of the election, and greater than every configEpoch it knew when it asked for votes |
| `ClusterProtocol.RunsLead` | redis/redis-3.2.3/src/cluster.c:2852-2858 | In every history whoever has won an epoch has that configEpoch or a greater one ever since |
| `ClusterProtocol.EpochsOnlyGrow` | redis/redis-3.2.3/src/cluster.c:1601-1612 | Along every history the currentEpoch, the lastVoteEpoch and every known configEpoch of every node only grow, and no node is forgotten |
| `ClusterProtocol.PacketTeaches` | redis/redis-3.2.3/src/cluster.c:1601-1612 | After a packet from a known sender the receiver knows at least the current epoch and configEpoch it carries, and for an UPDATE the epoch it reports |
| `ClusterProtocol.BumpExactly` | redis/redis-3.2.3/src/cluster.c:970-987 | After a bump no known epoch exceeds the own one, which is not 0; it is a new one exactly if it was 0 or not the current epoch |
| `ClusterProtocol.CollisionEnds` | redis/redis-3.2.3/src/cluster.c:1035-1050 | Of two masters with the same configEpoch, one PING of the one with the greater name, which can be sent and delivered, gives the other a strictly greater epoch and leaves the first as it was |
| `ClusterProtocol.OwnEpochChanges` | redis/redis-3.2.3/src/cluster.c:1873-1878 | A node's own configEpoch changes only by a bump, by winning, by an UPDATE about itself with a greater epoch, or by a PING in which a master hears a master with its very epoch and a greater name |
| `ClusterProtocol.BecomesMaster` | redis/redis-3.2.3/src/cluster.c:1953-1969 | A node becomes a master only by winning or by an UPDATE about itself with a greater epoch, always by the latter, and stops being one only by being demoted |
| `ClusterProtocol.NewsTravels` | redis/redis-3.2.3/src/cluster.c:1601-1612 | From every bounded state any node can be introduced to any other and be told what it may say, and afterwards knows at least its epochs and those it reports |
| `ClusterProtocol.LateVotes` | redis/redis-3.2.3/src/cluster.c:2770-2790 | From any state where some voters can still vote in the next epoch, a candidate can ask, reschedule before the votes arrive and end up with the votes of all of them counted for an election it has not started |
| `ClusterProtocol.EpochsAreBounded` | redis/redis-3.2.3/src/cluster.c:1601-1612 | In every history every configEpoch known to a node, and every epoch in flight, is at most the currentEpoch that goes with it; hence clusterGetMaxEpoch equals currentEpoch |
| `ClusterProtocol.StepBounded` | redis/redis-3.2.3/src/cluster.c:1953-1969 | Every step of the protocol keeps all known and travelling epochs bounded |
| `ClusterProtocol.FreshEpochIsGreatest` | redis/redis-3.2.3/src/cluster.c:970-987 | Whenever a bump or a collision fix changes a node's configEpoch, the new one is strictly greater than the old one and than every other epoch the node knows |
| `ClusterProtocol.SmallerNameMoves` | redis/redis-3.2.3/src/cluster.c:1035-1050 | Of two masters with the same configEpoch that hear each other, the one with the greater name keeps its epoch; the other moves to an epoch above both current epochs, exactly unless it believes the first to have a greater epoch than it has |
| `ClusterProtocol.GetMaxEpoch` | redis/redis-3.2.3/src/cluster.c:926-939 | The loop over the node table returns the greatest epoch in the node's view, and nothing smaller than any epoch it knows |
| `ClusterProtocol.OneVoteEach` | redis/redis-3.2.3/src/cluster.c:2538-2566 | Votes of one epoch come from different voters, so two disjoint sets of votes for an epoch fit together into the number of voters: quorums intersect |
| `ClusterSlots.Converges` | redis/redis-3.2.3/src/cluster.c:1442-1502 | An observer with an empty table, after any sequence of PING and UPDATE claims of masters with distinct nonzero epochs, has every slot owned by the claimant of greatest epoch among those whose claims were taken in, and knows exactly the epochs it has heard of |
| `ClusterSlots.LearnedExactly` | redis/redis-3.2.3/src/cluster.c:1953-1974 | Whose claims are taken in: exactly the nodes that pinged, and those an UPDATE spoke about before any packet of their own arrived |
| `ClusterSlots.OrderIndependentExactly` | redis/redis-3.2.3/src/cluster.c:1811-1826 | For masters with fixed slots and distinct epochs and any packets: all orders and repetitions give the same table exactly if of every slot the claimant of greatest epoch, among the nodes that ping or are reported by others, pings or sends nothing |
| `ClusterSlots.OrderIndependent` | redis/redis-3.2.3/src/cluster.c:1811-1826 | Under that condition the same packets in any other order and with any repetitions give the same table |
| `ClusterSlots.OrderMatters` | redis/redis-3.2.3/src/cluster.c:1601-1612 | If the best claimant of a slot is reported by another node and sends something but no PING, two orders of the packets leave the slot with different owners |
| `ClusterSlots.TwoReports` | redis/redis-3.2.3/src/cluster.c:1953-1974 | A concrete case: two nodes that report each other by UPDATE and never ping leave different tables depending on which report comes first |
| `ClusterSlots.OwnersOnlyRise` | redis/redis-3.2.3/src/cluster.c:1476-1483 | Along every history a slot that changes owner goes to a strictly greater epoch |
| `ClusterSlots.KnownClaimsChangeNothing` | redis/redis-3.2.3/src/cluster.c:1814-1826 | The memcmp shortcut is sound: a claim equal to the bitmap already known for the sender would not move a single slot |
| `ClusterSlots.DirtyIs` | redis/redis-3.2.3/src/cluster.c:1485-1492 | The dirty list holds exactly the slots below k that left the node although they hold keys, in ascending order |
| `ClusterSlots.Cluster.constructor` | redis/redis-3.2.3/src/cluster.c:400-420 | A new table has no owner anywhere and bitmaps and counters that agree with it |
| `ClusterSlots.Cluster.SetSlotBit` | redis/redis-3.2.3/src/cluster.c:3377-3399 | Sets the bit, returns its old value, and keeps numslots the number of set bits |
| `ClusterSlots.Cluster.ClearSlotBit` | redis/redis-3.2.3/src/cluster.c:3402-3407 | Clears the bit, returns its old value, and keeps numslots the number of set bits |
| `ClusterSlots.Cluster.AddSlot` | redis/redis-3.2.3/src/cluster.c:3418-3423 | Keeps table and bitmaps in agreement; fails exactly when the slot is taken, and then changes nothing |
| `ClusterSlots.Cluster.DelSlot` | redis/redis-3.2.3/src/cluster.c:3428-3435 | Keeps the agreement; fails exactly when the slot is free; the owner's bit was set, so the source's assertion holds |
| `ClusterSlots.Cluster.DelNodeSlots` | redis/redis-3.2.3/src/cluster.c:3439-3447 | Frees exactly the node's slots; the result is always 16384, not the number freed |
| `ClusterSlots.Cluster.DelNode` | redis/redis-3.2.3/src/cluster.c:863-890 | Frees the node's slots, its import marks and its migration marks, removes the node and keeps the agreement for the others |
| `ClusterSlots.Cluster.ClaimSlot` | redis/redis-3.2.3/src/cluster.c:1466-1500 | One claimed slot changes hands exactly when it is not being imported, is not the sender's and is free or owned with a smaller epoch, and then it is the sender's |
| `ClusterSlots.Cluster.UpdateSlotsConfigWith` | redis/redis-3.2.3/src/cluster.c:1442-1502 | A slot being imported never moves; any other changes hands exactly if the sender, who is not the node itself, claims it, does not own it, and it is free or its owner has a smaller epoch, and then it goes to the sender; the agreement is kept, and the result says exactly whether the current master lost a slot and which slots are dirty |
| `ClusterSlots.Cluster.ReceiveHeader` | redis/redis-3.2.3/src/cluster.c:1601-1612 | The epoch of a known sender becomes the greater of the two, no other changes |
| `ClusterSlots.Cluster.MustFollow` | redis/redis-3.2.3/src/cluster.c:1510-1530 | The node turns into a replica of the sender exactly when a slot was lost and none is left |
| `ClusterSlots.Cluster.ReceivePing` | redis/redis-3.2.3/src/cluster.c:1805-1826 | Header and slot part of a PING, shortcut included, give the view of the specification without the shortcut: the same slots change hands as in UpdateSlotsConfigWith, for a known sender |
| `ClusterSlots.Cluster.ReceiveUpdate` | redis/redis-3.2.3/src/cluster.c:1953-1974 | An UPDATE gives the specified view: the slots of the node spoken about change hands as in UpdateSlotsConfigWith exactly if both nodes are known, it is not about myself, and its epoch is greater than the one known; about myself only the epoch is taken in |
| `ClusterSlots.Cluster.ReplaceMaster` | redis/redis-3.2.3/src/cluster.c:2666-2682 | The promoted slave owns exactly what it and its master owned, and the agreement is kept |
| `Scheduler.DispatchedByOne` | skynet/skynet-src/skynet_mq.c:43-76 | In every interleaving a queue is linked at most once in the global list or held by at most one thread, never both; a queue with messages or marked for release is linked or held; a freed one is neither |
| `Scheduler.FifoExactlyOnce` | skynet/skynet-src/skynet_mq.c:137-209 | In every interleaving the messages pushed to a service are those dispatched, then those dropped, then those waiting, in order; none is dropped while the service is registered or referred to; when the queue is freed all of them have been dispatched or dropped |
| `SchedulerProgress.HeldIsDispatched` | skynet/skynet-src/skynet_server.c:276-317 | From every reachable state in which a thread has taken the queue of a registered service with messages, its own steps lead to the callback with exactly the oldest message moved from waiting to dispatched |
| `SchedulerProgress.LinkedIsDispatched` | skynet/skynet-src/skynet_server.c:276-330 | From every reachable state in which such a queue is anywhere in the global list and a thread is idle, the thread alone can get to that callback, whatever queues lie before it |
| `SchedulerProgress.AllIsDispatched` | skynet/skynet-src/skynet_server.c:293-317 | It can go on until everything pushed has been dispatched in order and the queue is no longer scheduled |
| `SchedulerProgress.Sends` | skynet/skynet-src/skynet_server.c:219-228 | From every reachable state an idle thread can send to a registered service: the message is appended, nothing else of the service changes, and the queue is put into the list exactly if it was not scheduled |
| `SchedulerProgress.Launches` | skynet/skynet-src/skynet_server.c:119-158 | From every reachable state an idle thread can launch a new service, which ends registered, referred to by the registry only, and at the end of the list |
| `SchedulerProgress.FailedLaunchFrees` | skynet/skynet-src/skynet_server.c:159-167 | If its init fails, the same thread frees it again, and it was never in the list |
| `SchedulerProgress.RetiredIsFreed` | skynet/skynet-src/skynet_mq.c:219-250 | A registered service that no thread uses can be retired and freed by an idle thread: what was waiting is dropped in order, what was dispatched stands |
| `SchedulerProgress.ComesTo` | skynet/skynet-src/skynet_server.c:318-330 | A worker comes to a queue at any place of the list after passing the queues before it, idle, busy, retired or dead, and finds its service unchanged |
| `Scheduler.StepsAreSafe` | skynet/skynet-src/skynet_mq.c:219-250 | No step touches a freed queue, a queue is marked for release at most once and freed only when not linked, and only the queue a step works on is ever linked, when it was not |
| `Scheduler.NeverStuck` | skynet/skynet-src/skynet_server.c:275-330 | A check of the machine rather than of the code: every thread of every reachable state has an enabled step |
| `Scheduler.FreedForGood` | skynet/skynet-src/skynet_server.c:198-228 | Once freed, a service never changes again: it is freed once |
| `Scheduler.ActionKeeps` | skynet/skynet-src/skynet_server.c:119-228 | Every action keeps the whole invariant: thread shapes, reference counts equal to holders, one marker per dead context, one owner per queue, message history |
| `Scheduler.RunsKeep` | skynet/skynet-src/skynet_handle.c:34-149 | Every reachable state satisfies that invariant for some assignment of owners |
| `MessageQueue.Queue.Push` | skynet/skynet-src/skynet_mq.c:189-209 | Appends to the sequence of waiting messages, growing the ring when it fills |
| `MessageQueue.Queue.Pop` | skynet/skynet-src/skynet_mq.c:137-172 | Takes the oldest message, says so exactly when there is one, records an overload exactly when the length exceeds the threshold, and then raises the threshold to between once and twice the length; an empty queue resets it |
| `MessageQueue.Queue.Expand` | skynet/skynet-src/skynet_mq.c:174-187 | Doubling a full ring keeps its messages in order |
| `MessageQueue.Queue.Length` | skynet/skynet-src/skynet_mq.c:111-125 | The number of waiting messages, whatever the positions of head and tail |
| `MessageQueue.Queue.NoteLength` | skynet/skynet-src/skynet_mq.c:152-159 | The overload threshold ends above the length, and less than twice the length if it was exceeded; overload records the length exactly then |
| `HandleTable.Storage.Register` | skynet/skynet-src/skynet_handle.c:34-67 | Gives a handle that is not in use and adds it to the map, doubling loses nothing, and the source aborts exactly when all 2^24 slots are used; the counter goes on from the last handle, so no handle comes back, exactly until it wraps around 24 bits |
| `HandleTable.Storage.Retire` | skynet/skynet-src/skynet_handle.c:69-106 | Removes exactly that handle and returns what it stood for, and drops its names and no others; an unknown or stale handle changes nothing |
| `HandleNames.Names.Find` | skynet/skynet-src/skynet_handle.c:151-179 | The binary search finds what a search of the whole list finds, or 0 |
| `HandleNames.Names.Insert` | skynet/skynet-src/skynet_handle.c:207-229 | Fails exactly when the name is taken; otherwise the name stands for the handle, all others for what they did, and the array stays sorted, also when it has to grow |
| `HandleNames.Names.Drop` | skynet/skynet-src/skynet_handle.c:81-93 | Compacting the array in place leaves exactly the names of other handles, in order |
| `HandleNames.WithoutHandle` | skynet/skynet-src/skynet_handle.c:81-93 | Afterwards a name stands for what it did, or for nothing if that was the handle |
| `HandleTable.Storage.Grab` | skynet/skynet-src/skynet_handle.c:132-149 | Finds a context exactly when the handle is registered |
| `HandleTable.Storage.FindFree` | skynet/skynet-src/skynet_handle.c:40-54 | Finds a free slot within one window of handles, or every slot is used |
| `HandleTable.Storage.Rehash` | skynet/skynet-src/skynet_handle.c:55-65 | In the doubled array every context sits at its own slot and nothing else does |
| `HandleTable.HashDouble` | skynet/skynet-src/skynet_handle.c:55-65 | Reducing by the doubled size and then by the size is reducing by the size |
| `TimerSpec.FiresOnceOnTimeInOrder` | skynet/skynet-src/skynet_timer.c:156-182 | In every history of adds, dispatches and ticks a request has fired exactly when it no longer waits, at its own tick and no other, firings are ordered by due tick and then by request order, and once the due list is empty a request has fired exactly when its tick has come |
| `TimerSpec.EveryRequestFires` | skynet/skynet-src/skynet_timer.c:92-103 | In every history and for every request in it: whenever nothing is due, the event given has fired exactly if the delay given has passed since the tick of the request, at that tick, and only once |
| `TimerSpec.StepKeepsSound` | skynet/skynet-src/skynet_timer.c:92-182 | Every step keeps: requests wait in order and none overdue, firings on time, in order, none lost |
| `Wheel.PlaceStep` | skynet/skynet-src/skynet_timer.c:71-136 | When the clock advances by one tick, also across the wrap to 0, a pending node stays in its list unless that list is the one the cascade empties, and then it moves to a list that is reached sooner |
| `Wheel.AlikeIsSamePage` | skynet/skynet-src/skynet_timer.c:76-86 | The tests of add_node, on 32-bit words with the low bits set, say exactly whether two times lie in the same page of 2^8, 2^14, 2^20 or 2^26 ticks |
| `Wheel.IndexIs` | skynet/skynet-src/skynet_timer.c:77-88 | Shifting and masking a time gives the index of its list on each level |
| `Bits.NumberBack` | skynet/skynet-src/skynet_timer.c:71-90 | Every number below 2^32 is the number of its word |
| `Bits.Masked` | skynet/skynet-src/skynet_timer.c:77-88 | Masking the low bits of a word is taking a remainder of its number |
| `TimerImpl.Redistribute` | skynet/skynet-src/skynet_timer.c:105-136 | Emptying one list and adding its nodes again leaves every list with exactly the nodes that belong there at the new time, in request order |
| `TimerImpl.DueList` | skynet/skynet-src/skynet_timer.c:156-167 | The near list of the current tick holds exactly the requests due now, in request order |
| `TimerImpl.Timer.constructor` | skynet/skynet-src/skynet_timer.c:184-207 | The empty wheel refines the plain timer at time 0 |
| `TimerImpl.Timer.AddNode` | skynet/skynet-src/skynet_timer.c:71-90 | The tests and indices computed on words link the node at the end of the list where it belongs |
| `TimerImpl.Timer.FindLevel` | skynet/skynet-src/skynet_timer.c:79-86 | The loop over the masks stops at the first level whose pages hold both times |
| `TimerImpl.Timer.MoveList` | skynet/skynet-src/skynet_timer.c:105-113 | The list is emptied and its nodes are distributed in order |
| `TimerImpl.Timer.FindCarry` | skynet/skynet-src/skynet_timer.c:122-135 | The loop over the digits finds the one list to cascade at a time, or that there is none |
| `TimerImpl.Timer.ShiftTime` | skynet/skynet-src/skynet_timer.c:115-136 | One tick of the wheel is one tick of the plain timer |
| `TimerImpl.Timer.Add` | skynet/skynet-src/skynet_timer.c:92-103 | Adds one waiting request with the event given, due the delay given after the present tick, and nothing else; it does not become due at once |
| `TimerImpl.Timer.Execute` | skynet/skynet-src/skynet_timer.c:156-167 | Dispatches exactly the requests due now, in order, and leaves none of them; the events dispatched are those recorded as fired |
| `TimerImpl.Timer.Update` | skynet/skynet-src/skynet_timer.c:169-182 | Is dispatch, tick, dispatch of the plain timer, and the events dispatched are those recorded as fired |
| `TimerImpl.Timer.UpdateTime` | skynet/skynet-src/skynet_timer.c:263-278 | Catches up as many ticks as the clock advanced, and none when it went backwards; after at least one tick exactly the requests due by now have fired |
| `SocketBuffer.SendList` | skynet/skynet-src/socket_server.c:475-505 | For any outcomes of write, the bytes written complete the packages done and begin the next one; nothing is skipped or repeated, the queued size shrinks by what was written, and what is left are the last packages of the list. An interrupted write is repeated; it stops before the end exactly at an error (then it fails), a would-block or a short write, of which exactly the bytes taken are sent |
| `SocketBuffer.Socket.SendBuffer` | skynet/skynet-src/socket_server.c:609-638 | Keeps the invariant (whole packages on the wire plus at most the beginning of the head of the high list, low head never part-sent, wb_size the bytes queued, each lane in order, write events on whenever something waits to be sent or the socket to be closed); closes only after an error, or half-closed with nothing left, and then always; sends everything when every write takes its package |
| `SocketBuffer.Socket.AllSent` | skynet/skynet-src/socket_server.c:627-634 | With nothing left the write events go off, and the socket closes exactly if it is half closed |
| `SocketBuffer.Socket.ReportConnect` | skynet/skynet-src/socket_server.c:1103-1124 | A connection that came about keeps what is queued, with write events on exactly if there is something; a failed one closes the socket |
| `SocketBuffer.Socket.SendHigh` | skynet/skynet-src/socket_server.c:611-615 | Sending the high list keeps the invariant and only adds to the wire |
| `SocketBuffer.Socket.SendLow` | skynet/skynet-src/socket_server.c:616-626 | Sending the low list and raising a part-sent head keeps the invariant |
| `SocketBuffer.Socket.Send` | skynet/skynet-src/socket_server.c:692-761 | Accepts a package exactly when the socket is open and a direct write does not fail; a package that finds a connected socket with both lists empty is written as far as write takes it and the rest goes to the high list, any other goes to the end of the list of its lane |
| `SocketBuffer.Socket.AppendHigh` | skynet/skynet-src/socket_server.c:668-672 | Queueing at the end of the high list, without what was written at once, keeps the invariant |
| `SocketBuffer.Socket.AppendLow` | skynet/skynet-src/socket_server.c:674-678 | Queueing at the end of the low list keeps the invariant, also when both lists are empty |
| `SocketBuffer.Socket.Close` | skynet/skynet-src/socket_server.c:784-809 | Without shutdown and without an error nothing accepted is dropped; the socket stays half closed only without shutdown and with something left to send, and otherwise is closed |
| `SocketBuffer.NothingDropped` | skynet/skynet-src/socket_server.c:784-809 | A socket closed with nothing dropped has sent every accepted package exactly once, each lane in order, and not one byte more |
| `SocketBuffer.HeadRaised` | skynet/skynet-src/socket_server.c:584-599 | Moving the part-sent head of the low list to the empty high list keeps wire, order and atomicity |
| `SocketBuffer.InOrderIsOnceEach` | skynet/skynet-src/socket_server.c:600-608 | Two sequences that agree lane by lane hold the same packages the same number of times |
| `AofHandoff.NothingLostOrRepeated` | redis/redis-3.2.3/src/aof.c:1358-1387 | In every interleaving in which the last read of the child does not fail: until the switch the log is the old one with every byte fed since the fork; after it, the log is on and is the snapshot followed by every byte fed since the fork, once each and in order. Only a log that was off at the fork, where nothing is logged, has the bytes up to the switch |
| `AofHandoff.SwitchTurnsOn` | redis/redis-3.2.3/src/aof.c:1473-1474 | In every history the switch turns a waiting log on, and nothing else changes whether the log is on, waiting or off |
| `AofHandoff.SwitchedAt` | redis/redis-3.2.3/src/aof.c:1358-1387 | The bytes up to the switch are those fed when the files were exchanged |
| `AofHandoff.FlushedIsDurable` | redis/redis-3.2.3/src/aof.c:325-421 | After a flush of the whole buffer the file alone holds everything fed, before and after the switch |
| `AofHandoff.FailedRewriteChangesNothing` | redis/redis-3.2.3/src/aof.c:1481-1502 | In every history a child can fail until it has finished; a rewrite that failed, in the child or when its file is put in place, leaves file, buffer and mode of the old log as they were and releases the rewrite buffer |
| `AofHandoff.RewriteSucceeds` | redis/redis-3.2.3/src/aof.c:1129-1148 | From every state after a fork and for every command there is a rewrite that ends with the whole log |
| `AofHandoff.LosesWhatTheLastReadLeft` | redis/redis-3.2.3/src/aof.c:1129-1148 | After a switch the log is complete exactly if the last read of the child took all bytes of the pipe, which it does unless read fails although there are some |
| `AofHandoff.FailedReadLoses` | redis/redis-3.2.3/src/aof.c:996-1006 | From every state after a fork and for every command, a history with a failed last read ends with an incomplete log |
| `AofHandoff.AfterLastRead` | redis/redis-3.2.3/src/aof.c:1138-1148 | There is one last read, and after it nothing enters or leaves what the child has |
| `AofHandoff.ReadForTheLastTime` | redis/redis-3.2.3/src/aof.c:996-1006 | The reading loop of the child is the last-read step of the machine, and a failed one only if a read failed |
| `AofHandoff.SilentAfterAck` | redis/redis-3.2.3/src/aof.c:1180-1201 | Once the child has seen the answer nothing is written to the pipe any more |
| `AofHandoff.StepInTransit` | redis/redis-3.2.3/src/aof.c:1129-1148 | Every step keeps: what was fed is what the child has, then the pipe, then the buffer; and an answer means the server has stopped |
| `AofHandoff.RunsKeep` | redis/redis-3.2.3/src/aof.c:551-556 | Every reachable state keeps all bytes in transit in order, the old log complete and the new log complete but for bytes the last read left |
| `AofBuffer.RewriteBuffer.Append` | redis/redis-3.2.3/src/aof.c:124-166 | Filling blocks and allocating new ones appends exactly the bytes given |
| `AofBuffer.RewriteBuffer.SendDiff` | redis/redis-3.2.3/src/aof.c:95-121 | Whatever write answers, the bytes sent and the bytes left are the buffer; nothing is sent after the stop, the handler goes exactly when stopped or empty, and stays only because a write took nothing |
| `AofBuffer.RewriteBuffer.WriteTo` | redis/redis-3.2.3/src/aof.c:173-193 | Writes a prefix of the buffer; success means all of it, and it succeeds when every write takes its block |
| `AofBuffer.RewriteBuffer.Size` | redis/redis-3.2.3/src/aof.c:79-90 | The number of bytes buffered |
| `AofBuffer.ReadDiff` | redis/redis-3.2.3/src/aof.c:996-1006 | Bytes read and bytes left are the pipe; some are left only if a read failed |
| `Stm.WritersAreAlone` | skynet/skynet-src/rwlock.h:17-48 | With any number of threads stepping through the spin loops, a thread past the write lock shares the critical section with nobody |
| `Stm.StepLock` | skynet/skynet-src/rwlock.h:17-48 | Every step keeps: the flag is set by exactly one thread, the counter is the number of threads counted in it, and writing excludes reading |
| `Stm.StepsAreSafe` | skynet/lualib-src/lua-stm.c:91-113 | Every counter changed belongs to a living copy with a positive count (the assertion in stm_copy), and a copy about to be freed was not freed before and nothing refers to it |
| `Stm.LivesWhileReferenced` | skynet/lualib-src/lua-stm.c:45-53 | The count of a copy is the number of references to it from the object and the threads, and it lives exactly as long as there is one |
| `Stm.FreedOnce` | skynet/lualib-src/lua-stm.c:45-53 | A copy only goes from living to dying to freed, by the thread that brought its count to zero, until its address is given to a new copy: it is freed at most once |
| `Stm.StepKeeps` | skynet/lualib-src/lua-stm.c:203-233 | Every step of readers, writers and releases keeps the whole invariant |
| `StmProgress.ReadReturnsTheCopy` | skynet/lualib-src/lua-stm.c:91-102 | In every interleaving a finished read leaves in lastcopy the copy that obj->copy was at the moment the read, holding the lock, loaded it |
| `StmProgress.UpdatePublishes` | skynet/lualib-src/lua-stm.c:104-114 | An update publishes the copy it was given and releases the one it replaced |
| `StmProgress.OnlyStoresPublish` | skynet/lualib-src/lua-stm.c:55-72 | Nothing else changes what is published but a release, which leaves nothing |
| `StmProgress.ReadGetsThrough` | skynet/lualib-src/lua-stm.c:203-233 | While nobody holds the write flag a read alone gets through, returns what is published and leaves the lock as it was |
| `StmProgress.UpdateGetsThrough` | skynet/lualib-src/lua-stm.c:104-114 | While the lock is free an update gets through, publishes its copy and leaves the lock free |
| `StmProgress.ReleaseGetsThrough` | skynet/lualib-src/lua-stm.c:55-72 | While the lock is free a release gets through and leaves nothing published |
| `StmProgress.ForgetGetsThrough` | skynet/lualib-src/lua-stm.c:192-201 | A reader can always let go of its copy |
| `StmProgress.LockIsFree` | skynet/skynet-src/rwlock.h:17-48 | In every history the write flag is set exactly while some thread is inside the write lock, and the read counter is 0 exactly if no thread is counted |
| `Framing.ChunkingIsIrrelevant` | skynet/lualib-src/lua-netpack.c:225-305 | However a stream is cut into chunks, feeding them one by one gives the parse of the whole stream |
| `Framing.PackedComeBack` | skynet/lualib-src/lua-netpack.c:434-450 | Packed messages sent back to back parse into the same messages, empty ones included |
| `Framing.Pack` | skynet/lualib-src/lua-netpack.c:428-450 | A message of 2^16 bytes or more is refused; any other follows its length in two bytes, the more significant one first |
| `Framing.ParseAppend` | skynet/lualib-src/lua-netpack.c:186-213 | Parsing the second part of a stream after what the first part left gives the parse of the whole |
| `Netpack.Filter.FilterData` | skynet/lualib-src/lua-netpack.c:225-305 | For any number of sockets the packages handed out for each, at once or through the ring, are exactly the parse of its bytes; says which of nothing, one package or several it was |
| `Netpack.Filter.PushMore` | skynet/lualib-src/lua-netpack.c:186-213 | Puts every whole package of the bytes into the ring, in order, and keeps the rest as pending |
| `Netpack.Filter.Fill` | skynet/lualib-src/lua-netpack.c:229-268 | Completing a pending package gives the parse of the pending bytes followed by the chunk |
| `Netpack.Filter.Begin` | skynet/lualib-src/lua-netpack.c:269-304 | Without pending bytes gives the parse of the chunk |
| `Netpack.Filter.Find` | skynet/lualib-src/lua-netpack.c:90-112 | Takes the pending entry of the socket out of its hash chain, and finds it exactly when there is one |
| `Netpack.Filter.Save` | skynet/lualib-src/lua-netpack.c:167-178 | Puts an entry into its chain |
| `Netpack.Filter.Close` | skynet/lualib-src/lua-netpack.c:215-223 | Forgets what is pending for the socket and nothing else |
| `Netpack.Ring.Push` | skynet/lualib-src/lua-netpack.c:148-165 | Appends to the waiting packages, growing the ring when it fills |
| `Netpack.Ring.Pop` | skynet/lualib-src/lua-netpack.c:394-408 | Takes the oldest waiting package exactly when there is one |
| `Netpack.Ring.Expand` | skynet/lualib-src/lua-netpack.c:131-146 | Growing a full ring keeps its packages in order |
| `SeriFormat.ReadsBack` | skynet/lualib-src/lua-seri.c:465-530 | For every value, reading what was written for it gives the value and leaves any following bytes untouched |
| `SeriFormat.ListReadsBack` | skynet/lualib-src/lua-seri.c:553-595 | A list of values packed one after the other comes back as it was |
| `SeriFormat.IntBack` | skynet/lualib-src/lua-seri.c:140-172 | Every 64-bit integer, in whichever of the six forms it is written, reads back as itself |
| `SeriFormat.StrBack` | skynet/lualib-src/lua-seri.c:188-211 | Every string under 2^31 bytes, short or long form, reads back as itself |
| `SeriFormat.IntOnTheWire` | skynet/lualib-src/lua-seri.c:140-172 | The bytes of an integer: tag 2 for zero, else tag 10, 18, 34 or 50 for one, two, four or eight bytes, the shortest that holds it, in two's complement and least significant first |
| `SeriFormat.OnTheWire` | skynet/lualib-src/lua-seri.c:128-235 | The bytes of every other value: the tags, the lengths of short and long strings, the size of the array part, the closing nil |
| `Endian.BytesSpell` | skynet/lualib-src/lua-seri.c:140-172 | Two, four or eight bytes are the digits of the number to base 256, least significant first |
| `Seri.WriteBlock.Push` | skynet/lualib-src/lua-seri.c:63-83 | Across block boundaries the contents of the chain grow by exactly the bytes given |
| `Seri.WriteBlock.Flatten` | skynet/lualib-src/lua-seri.c:532-551 | The chain copied into one buffer is the concatenation of everything pushed |
| `Seri.PackOne` | skynet/lualib-src/lua-seri.c:294-338 | Writes the encoding of the value, and fails exactly when tables are nested more than 32 deep |
| `Seri.PackTable` | skynet/lualib-src/lua-seri.c:280-292 | Writes array part, other entries and the closing nil, and fails exactly when the contents lie too deep |
| `Seri.PackInt` | skynet/lualib-src/lua-seri.c:140-172 | Writes the encoding of an integer |
| `Seri.PackStr` | skynet/lualib-src/lua-seri.c:188-211 | Writes the encoding of a string |
| `Seri.Pack` | skynet/lualib-src/lua-seri.c:597-610 | The buffer is the encoding of the list, decodes to the list, and packing fails exactly when a value is nested too deep |
| `Seri.UnpackOne` | skynet/lualib-src/lua-seri.c:521-530 | The cursor reads exactly the value the format says is there, or fails exactly when there is none |
| `Seri.UnpackTable` | skynet/lualib-src/lua-seri.c:432-463 | Reads exactly the table the format says is there |
| `Seri.GetInteger` | skynet/lualib-src/lua-seri.c:357-398 | Reads exactly the integer the format says is there |
| `Seri.Unpack` | skynet/lualib-src/lua-seri.c:553-595 | Reads all values up to the end of the buffer |
| `Seri.RoundTrip` | skynet/lualib-src/lua-seri.c:597-610 | Packing and unpacking returns every list that packs |
| `LuaTable.TableComesBack` | skynet/lualib-src/lua-seri.c:280-292 | A table given by its entries in any order, cut at any border lua_rawlen may report (elements before it may be nil), packed and unpacked, has exactly the entries it had |
| `LuaTable.Split` | skynet/lualib-src/lua-seri.c:237-255 | Array part and the entries not skipped together are all entries, each once |
| `LuaTable.OthersStep` | skynet/lualib-src/lua-seri.c:241-248 | A longer array part takes exactly the entry of its last index away from the others |
| `LuaTable.SelectOthers` | skynet/lualib-src/lua-seri.c:237-255 | The loop keeps exactly the entries outside the array part, in order |
| `Sharedata.SharedTable.constructor` | skynet/lualib-src/lua-sharedata.c:274-323 | The table built agrees with its source: array part, one slot per remaining key, every key in the chain of its main position |
| `Sharedata.SharedTable.FillNoColliding` | skynet/lualib-src/lua-sharedata.c:210-233 | The first key of every main position gets it, and the array part holds its keys |
| `Sharedata.SharedTable.FillColliding` | skynet/lualib-src/lua-sharedata.c:235-270 | Every other key gets a slot behind its main position, and there is always an unused one |
| `Sharedata.SharedTable.FindUnused` | skynet/lualib-src/lua-sharedata.c:250-257 | As long as fewer keys than slots are entered the search finds an unused slot (the source's assertion) |
| `Sharedata.ChainDoesNotRepeat` | skynet/lualib-src/lua-sharedata.c:258-264 | A chain visits no slot twice |
| `Sharedata.NoSlotIsFree` | skynet/lualib-src/lua-sharedata.c:299-311 | With as many keys as slots every slot is used |
| `Sharedata.SharedTable.Lookup` | skynet/lualib-src/lua-sharedata.c:499-528 | Finds the slot of a key exactly when the table holds it, walking only keys of one main position |
| `Sharedata.SharedTable.Index` | skynet/lualib-src/lua-sharedata.c:530-564 | Returns the value of the source table, or nothing when it has none |
| `Sharedata.SharedTable.NextKey` | skynet/lualib-src/lua-sharedata.c:587-644 | Goes to the next occupied position after a key, and ends exactly when there is none |
| `Sharedata.SharedTable.Traverse` | skynet/lualib-src/lua-sharedata.c:577-644 | Following nextkey from nil visits every key of the source table exactly once |
| `Sharedata.CountSize` | skynet/lualib-src/lua-sharedata.c:65-87 | The number of keys outside the array part |
| `Bson.ReplaceThenDecode` | skynet/lualib-src/lua-bson.c:814-862 | Index, replace, decode: all fields as before but for the value of the key, which reads as the value given (32-bit for an INT32, a boolean for a BOOLEAN) |
| `Bson.Replace` | skynet/lualib-src/lua-bson.c:814-862 | The document after a replacement is a document with only that value changed; fails exactly when the key is not indexed or the value has the wrong type |
| `Bson.MakeIndex` | skynet/lualib-src/lua-bson.c:693-776 | The index, made with its own switch over the types, holds exactly the fixed-size fields, each with its type and the offset its value is read from |
| `Bson.SwitchesAgree` | skynet/lualib-src/lua-bson.c:705-757 | On every value that decoding accepts the switch of lmakeindex skips exactly the bytes the switch of unpack_dict reads |
| `Bson.SwitchesDiffer` | skynet/lualib-src/lua-bson.c:583-589 | They differ otherwise: a string of size 0 is skipped but not read |
| `Bson.Skips` | skynet/lualib-src/lua-bson.c:705-757 | lmakeindex skips exactly the value of every well-formed field, nested documents included |
| `Bson.Decode` | skynet/lualib-src/lua-bson.c:551-691 | Decoding succeeds exactly on documents whose fields are well-formed at every depth, and gives back exactly these fields |
| `Bson.ReadsDocument` | skynet/lualib-src/lua-bson.c:551-691 | Reading a document gives its fields, nested ones included, and leaves what follows |
| `Bson.DocumentWas` | skynet/lualib-src/lua-bson.c:551-691 | Whatever reads as a document is the document of the fields read |
| `Bson.IdUnpacks` | skynet/lualib-src/lua-bson.c:825-826 | The packed 32-bit id gives back type and offset, and is not negative, for all offsets below 2^26 |
| `Bson.ReadsBack` | skynet/lualib-src/lua-bson.c:778-812 | A value written is read back as it was exactly when it fits: 32 bits for an INT32, a boolean for a BOOLEAN, anything for the other types |
| `Bson.Int32Truncates` | skynet/lualib-src/lua-bson.c:843-850 | 2^31 written to an INT32 field is read back as something else |
| `Bson.AsBsonSays` | skynet/lualib-src/lua-bson.c:778-850 | The bytes written: a date as milliseconds in eight bytes, integers in two's complement, all least significant byte first; a boolean as 0 or 1 |
| `Bson.SizeIsLocal` | skynet/lualib-src/lua-bson.c:705-757 | What follows a value in the document has no influence on where it ends |
| `DiffieHellman.Agreement` | skynet/lualib-src/lua-crypt.c:699-757 | For all nonzero x and y both sides compute the same secret, 5 to the power x times y modulo P |
| `DiffieHellman.Handshake` | skynet/lualib-src/lua-crypt.c:722-757 | Over byte strings: two nonzero 8-byte keys always lead to the same 8 bytes on both sides |
| `DiffieHellman.MulModP` | skynet/lualib-src/lua-crypt.c:664-683 | Shift-and-add with wrapping 64-bit arithmetic gives the product modulo P, for a factor up to P |
| `DiffieHellman.RaiseModP` | skynet/lualib-src/lua-crypt.c:686-697 | Square-and-multiply gives the power modulo P, except P to the power 1, which is returned unreduced |
| `DiffieHellman.PowModP` | skynet/lualib-src/lua-crypt.c:699-705 | Gives the power modulo P for every 64-bit base exactly when it is not P to the power 1 |
| `DiffieHellman.PIsNotReduced` | skynet/lualib-src/lua-crypt.c:701-703 | P to the power 1 stays P |
| `DiffieHellman.PublicKeyIsNotZero` | skynet/lualib-src/lua-crypt.c:737-757 | No public key is 0 or P, so the other side never rejects it |
| `DiffieHellman.Exchange` | skynet/lualib-src/lua-crypt.c:739-757 | The public key of x, or an error exactly for a wrong length or zero |
| `DiffieHellman.Secret` | skynet/lualib-src/lua-crypt.c:722-735 | The shared secret, or an error exactly for a wrong length or zero |
| `Des.RoundTrip` | skynet/lualib-src/lua-crypt.c:363-436 | For every key of eight bytes, every text, any key schedule and any S-boxes, decoding what was encoded returns the text; other keys are refused |
| `Des.CryptedTwice` | skynet/lualib-src/lua-crypt.c:313-335 | A block encrypted and then encrypted with the subkey pairs reversed is the block again |
| `Des.RoundsUndo` | skynet/lualib-src/lua-crypt.c:226-240 | Running the sixteen rounds with reversed subkey pairs and exchanged halves undoes them one by one, whatever the S-boxes |
| `Des.PermutationsInvert` | skynet/lualib-src/lua-crypt.c:201-222 | DES_FP undoes DES_IP and the other way round, on all pairs of 32-bit words |
| `Des.InitialIsStandard` | skynet/lualib-src/lua-crypt.c:201-212 | DES_IP is the initial permutation of FIPS 46-3 with both halves rotated by one |
| `Des.MixIsStandard` | skynet/lualib-src/lua-crypt.c:226-240 | DES_ROUND gives each S-box its group of the selection table E of FIPS 46-3, xored with its part of the round key |
| `Des.RoundsAreStandard` | skynet/lualib-src/lua-crypt.c:320-331 | The alternating rounds are the rounds of FIPS 46-3, in which the halves change sides |
| `Des.CryptedIsStandard` | skynet/lualib-src/lua-crypt.c:313-335 | A block is enciphered as FIPS 46-3 says, for any S-boxes and subkeys |
| `Words.MostSignificantFirst` | skynet/lualib-src/lua-crypt.c:183-198 | A word is loaded with its first byte the most significant |
| `Des.Crypt` | skynet/lualib-src/lua-crypt.c:313-335 | Computes the block function |
| `Des.Encode` | skynet/lualib-src/lua-crypt.c:363-396 | The result is the encryption of the text padded with 0x80 and zeros to whole blocks; fails exactly for keys of the wrong size |
| `Des.Decode` | skynet/lualib-src/lua-crypt.c:398-436 | Succeeds exactly on encryptions of padded texts, and returns the text that was padded; empty or partial input is refused |
| `Des.Padding` | skynet/lualib-src/lua-crypt.c:421-434 | Finds the padding exactly when there is one |
| `Des.Reverse` | skynet/lualib-src/lua-crypt.c:403-407 | The subkeys of decoding are the pairs in reverse order |
| `Sha1.Transform` | skynet/lualib-src/lsha1.c:122-171 | The circular 16-word schedule and the registers that change roles compute the 80-word form of section 6.1.2 of FIPS 180-4 |
| `Sha1.BlkIsW` | skynet/lualib-src/lsha1.c:111-112 | A circular entry is the schedule word of section 6.1.2 |
| `Sha1.RolesMove` | skynet/lualib-src/lsha1.c:115-119 | A round that renames registers is the round that moves them |
| `Sha1.SwapLoads` | skynet/lualib-src/lsha1.c:108-109 | The byte swap turns a word loaded little-endian into the big-endian word |
| `Sha1.Context.Update` | skynet/lualib-src/lsha1.c:188-212 | Whatever the chunks, the state is the hash of the whole blocks so far and the buffer holds the rest; the counter stays right for chunks under 2^29 bytes |
| `Sha1.CountIsRight` | skynet/lualib-src/lsha1.c:197-198 | The bit counter is right after a chunk exactly when the chunk is under 2^29 bytes or the low half really overflows |
| `Sha1.FirstChunkMiscounted` | skynet/lualib-src/lsha1.c:197-198 | It is wrong after a first chunk of 2^29 bytes |
| `Sha1.Context.Final` | skynet/lualib-src/lsha1.c:217-242 | With the counter right, the digest is that of the message padded as in section 5.1.1 of FIPS 180-4 |
| `Sha1.Context.AddZeros` | skynet/lualib-src/lsha1.c:227-229 | Adds exactly the zero bytes that section 5.1.1 asks for |
| `Sha1.HashOf` | skynet/lualib-src/lsha1.c:248-259 | The digest of every string under 2^29 bytes is SHA-1 of it |
| `Sha1.HmacOf` | skynet/lualib-src/lsha1.c:273-310 | For key and text under 2^29 bytes the result is HMAC as in section 2 of RFC 2104 |
| `Sha1.XorKey` | skynet/lualib-src/lsha1.c:264-270 | XOR of the whole key block with a repeated byte |

## Left out

- ClusterProtocol.AtMostOneWinner: the voter set is fixed, as a winner that joined it in the same epoch would change the quorum.
- Bson.Decode: values other than documents are kept as their bytes and type, and sizes above 2^31 are refused; the encoder, the numbering of array elements and the Lua tables built from the fields are not modelled.
- Bson.Replace: a number for a REAL field is given as its double; Lua's conversion of integers and numeric strings to doubles is not modelled.
- Des.Encode: the key schedule is a parameter and not modelled, because the round trip holds for any subkeys.
- Des.Decode: for texts no encoder produced the model stops looking for padding at the start of the last block.
- Sharedata.SharedTable.Index: integer keys are 32 bits wide; keys that a C int cuts off, nested tables and the string index are not modelled.
- Cluster administration (SETSLOT, FAILOVER TAKEOVER, RESET, FORGET), manual failover timing, restarts, gossip failure detection, replica migration and a slave whose master is unknown: more cases, no deeper argument.
- ClusterSlots.Cluster.DelNode: the failure reports of the node, which have no part in the slot table, are not modelled.
- What a voter checks from its local view besides epochs (master failing, vote timeout, current slots) is the free choice `willing`.
- Messages between harbors, shutdown (`skynet_handle_retireall`, `skynet_context_dispatchall`), the assignment of `ctx->handle` and `ctx->init` after registration, monitors and weights (the number of messages per batch is a free choice).
- Timers with a delay of zero or less, which never reach the wheel.
- UDP, listening sockets, user-object send buffers, kqueue and epoll themselves.
- Loading and flushing policy of the append only file, the snapshot's own format, a second rewrite after the first.
- Lifetime of the `stm_object` itself, and memory orders weaker than sequential consistency.
- Malformed serializer streams beyond the fact that unpacking fails exactly where the format says so; strings of 2^31 bytes and more; metatables with `__pairs` are a table without array part.
- Everything else in both systems (commands, replication, persistence, the Lua binding layer, services): outside the properties above.
