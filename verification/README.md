# Verified model of the smart_net communication core

This project models four parts of the repository and proves properties of them with Dafny.
`dafny verify dfyconfig.toml` checks everything.

**Reliable multicast** (`RmpWire`, `RmpReceiver`, `RmpSender`, `ReorderBuffer`, `RmpSystem`,
`RmpInvariant`, `RmpDelivery`, `RmpRecovery`, `RmpLiveness`, `RmpGroup`, `RmpLimits`). The two halves of
`CRmpSock` are the classes `RecvSock` and `SendSock`; each of their methods is proved equal to a function on values, and
everything else is proved about those functions. The system is one sender, any number of receivers and a
network that is the set of all datagrams ever sent: any of them may arrive any number of times, in any
order, or never. Clock readings, the number of datagrams a socket takes, and the iteration order of the
receiver table are arbitrary inputs. The window size W and the reorder buffer size N are parameters with
W / 10 <= N. A receiver is *tracked* while the sender's table knows it or no packet has been released;
`RmpRecovery.LoneReceiverTracked` shows that a lone receiver always is, and `RmpGroup.SafeExactly` that
every receiver of a group is safe in every run exactly when there is at most one, or the window is too
small to send at all, or every reorder buffer has a single slot. The runs of that statement are those that no
assertion in front of a handled branch stops (`RmpGroup.Passes`); all other results hold of the branches
behind those assertions too.

**Unicast byte stream** (`MemBlock`, `Package`, `Archive`, `Framing`, `Dispatcher`, `Stream`, `RupSock`,
`RupReceive`). `CMemBlock` is an array with offset and length that is a byte sequence to its users.
`CArchive` writes packages into it, `CDispatcher` takes them out again, `CRupSock` sends and receives in
pieces. `Framing` holds the theory of parsing a stream by any rule that is decided by its front.

**Outbound connector** (`Connector`, `ConnectorFate`, `Notifier`, `ConnectorSystem`, `ConnectorClose`). The transition
table, the handlers that override it, and any number of connectors in product with the timer task and an
output task, at the granularity of single steps of every thread.

**Two concurrency pieces** (`RwLock`, `Balance`): `CRWLock` for any number of threads and permits, and the
least-loaded assignment of `CSNEngine::add_endpoint`.

Results that say where the code does not do what its names promise:

- An empty packet that arrives in order is neither handed over nor taken off the receive block, so the
  receive loop's own assertion stops the receiver (`RmpLimits.WedgedExactly`, `RmpLimits.WedgedForGood`).
  An empty packet that arrives early is handed over. End-to-end delivery is stated for both cases.
- `CRupSock::send` keeps the order of all data in its direct branch exactly when the queue being sent is
  empty and the socket takes at least one byte (`RupSock.DirectInOrderExactly`); otherwise data is lost or
  overtakes what is queued.
- A second receiver makes the sender release packets that the first one still misses. For every window of
  ten or more and every buffer of more than one slot, that receiver then hands over a later packet in place
  of a missing one, and no assertion stops it (`RmpGroup.OverrunFails`, `RmpGroup.SecondReceiverFails`,
  `RmpGroup.SafeExactly`).
- A lone receiver that acknowledges a number once more, as its timer does while nothing new comes, meets the
  sender's assertion against repeated acknowledgements (`RmpLiveness.RepeatedAckStops`).
- A connector whose socket the kernel refuses stays in its adding state for ever, and a close is lost; a
  close completes exactly when the connector's own socket is not refused first
  (`ConnectorClose.CloseCompletesExactly`, `ConnectorClose.StuckForEver`, `ConnectorClose.RefusalReachable`).
- The assertion that a connector which checks its timer has no socket fails exactly when a close has deleted
  its socket from the output task since the last connect. A close accepted while connecting does so, and so
  does one accepted while the socket is being added to the output task
  (`ConnectorClose.NoSockAssertsExactly`, `ConnectorClose.ReopenedWithSock`).
- The task counts leave out what a notifier thread has taken out of its cache and not yet inserted. The
  assignment is balanced at every point of a run exactly when every object goes to a task that is least
  loaded with those included, which it does when objects arrive between rounds
  (`Balance.RunBalancedExactly`, `Balance.RunBalanced`, `Balance.UnevenMidRound`).
- The read/write lock excludes exactly when it has a permit (`RwLock.ExcludesExactly`).

## Model

| member | source | states |
|---|---|---|
| `RmpReceiver.RecvSock.constructor` | libcomm_net/src/network/sn_socket_impl.cpp:639-660 | a receiver starts with nothing received, all slots empty |
| `RmpReceiver.RecvSock.HandleData` | libcomm_net/src/network/sn_socket_impl.cpp:1091-1182 | the three branches on the number of a data datagram: next in order, repeated, ahead; whole new state and result code |
| `RmpReceiver.RecvSock.ActivateBuffered` | libcomm_net/src/network/sn_socket_impl.cpp:1102-1134 | the buffered run that continues the in-order numbers becomes the range to hand over |
| `RmpReceiver.RecvSock.AdvanceValidEnd` | libcomm_net/src/network/sn_socket_impl.cpp:1106-1114 | the first scanning loop stops at the end of the run of filled slots |
| `RmpReceiver.RecvSock.AdvanceUnvalidBegin` | libcomm_net/src/network/sn_socket_impl.cpp:1118-1126 | the second scanning loop stops at the next filled slot |
| `RmpReceiver.ScanValidEnd` | libcomm_net/src/network/sn_socket_impl.cpp:1107-1114 | every slot up to the result is filled, and the next one is not unless the far end is reached |
| `RmpReceiver.ScanUnvalidBegin` | libcomm_net/src/network/sn_socket_impl.cpp:1119-1126 | every slot before the result is empty, and the result's is not unless the far end is reached |
| `RmpReceiver.RecvSock.KeepAhead` | libcomm_net/src/network/sn_socket_impl.cpp:1142-1179 | bounds, slot and block after a datagram ahead of a gap, discarded when it lies beyond the buffer |
| `RmpReceiver.RecvSock.HandleHeartbeat` | libcomm_net/src/network/sn_socket_impl.cpp:1187-1213 | a heartbeat ahead of the last in-order number is answered by a request for everything missing |
| `RmpReceiver.RecvSock.SendAck` | libcomm_net/src/network/sn_socket_impl.cpp:1066-1085 | when an acknowledgement is sent, and what it records |
| `RmpReceiver.RecvSock.GetNextReceivedData` | libcomm_net/src/network/sn_socket_impl.cpp:1037-1061 | block first, then the range to hand over slot by slot, then the acknowledgement |
| `RmpReceiver.RecvSock.HandleCanSend` | libcomm_net/src/network/sn_socket_impl.cpp:826-867 | the receiver's timer: forced acknowledgement and request for the gap in front of the buffer |
| `RmpReceiver.ReadyExactly` | libcomm_net/src/network/sn_socket_impl.cpp:1096-1140 | exactly the next number in order makes data ready and fills the block; a repeated number changes nothing |
| `RmpReceiver.KeptExactly` | libcomm_net/src/network/sn_socket_impl.cpp:1142-1176 | in numbers: an early packet is discarded exactly when something is buffered, it lies behind all of it, and more than N behind the last in-order number; else it is in its slot, no other slot changes, and the bounds take it in |
| `RmpReceiver.DrainAcksExactly` | libcomm_net/src/network/sn_socket_impl.cpp:1066-1085 | a drain ends with an acknowledgement exactly when something has been received and ackCnt more than at the last |
| `RmpReceiver.TimerExactly` | libcomm_net/src/network/sn_socket_impl.cpp:826-867 | the timer's whole output and new readings in numbers: acknowledgement exactly when due, then the request for the gap exactly when due |
| `Bytes.SubWraps` | libcomm_net/src/network/sn_socket_impl.cpp:844-848 | differences of readings and numbers wrap around at 2^64 |
| `RmpSender.SendSock.constructor` | libcomm_net/src/network/sn_socket_impl.cpp:656-664 | a sender starts with head 0, tail 1, nothing sent, an empty table |
| `RmpSender.SendSock.Send` | libcomm_net/src/network/sn_socket_impl.cpp:789-817 | the packet goes into the slot of the tail, or NO_SPACE and no change |
| `RmpSender.SendSock.HandleCanSend` | libcomm_net/src/network/sn_socket_impl.cpp:869-943 | the multicast loop against the window and the tail, and the heartbeat that ends it |
| `RmpSender.SendSock.HandleNak` | libcomm_net/src/network/sn_socket_impl.cpp:1221-1262 | the table is stamped; in range, the requested slots are sent again in order |
| `RmpSender.SendSock.HandleAck` | libcomm_net/src/network/sn_socket_impl.cpp:1268-1306 | number recorded, expired receivers evicted, head moved past the minimum |
| `RmpSender.SendSock.EvictExpired` | libcomm_net/src/network/sn_socket_impl.cpp:1285-1297 | the erase-while-scanning loop in any iteration order |
| `RmpSender.ExpiredExactly` | libcomm_net/src/network/sn_socket_impl.cpp:1287-1290 | expired means last heard of longer ago than the keep-alive time |
| `RmpSender.NakMeaning` | libcomm_net/src/network/sn_socket_impl.cpp:1221-1244 | a request stamps its receiver, or creates it, changes nothing else, and is not answered outside the window |
| `RmpSender.StaleAck` | libcomm_net/src/network/sn_socket_impl.cpp:1268-1281 | a repeated acknowledgement only stamps its receiver |
| `RmpSender.ScanMeaning` | libcomm_net/src/network/sn_socket_impl.cpp:1285-1297 | exactly the entries heard of within the keep-alive time, in numbers, stay, unchanged; the minimum is the least of the seed and of every entry that stays |
| `RmpSender.AckTable` | libcomm_net/src/network/sn_socket_impl.cpp:1273-1297 | the acknowledging receiver always stays, numbers never fall, of the others exactly those heard of within the keep-alive time stay |
| `RmpSender.AckHead` | libcomm_net/src/network/sn_socket_impl.cpp:1276-1306 | the head only moves forward, to one past the least confirmed number, and exactly when that is not below it |
| `RmpSender.HeadExactly` | libcomm_net/src/network/sn_socket_impl.cpp:1284-1306 | exactly how far: one past the least number of those who stay and of the first in iteration order, who counts even when evicted |
| `ReorderBuffer.FreshRepresents` | libcomm_net/src/network/sn_socket_impl.cpp:639-660 | an empty buffer represents the empty set |
| `ReorderBuffer.InOrder` | libcomm_net/src/network/sn_socket_impl.cpp:1096-1134 | after an in-order number the buffer represents the set with that number added |
| `ReorderBuffer.RunEnd` | libcomm_net/src/network/sn_socket_impl.cpp:1106-1114 | the first scan finds the end of the accepted run |
| `ReorderBuffer.NextIsland` | libcomm_net/src/network/sn_socket_impl.cpp:1116-1127 | the second scan finds the least accepted number behind the run |
| `ReorderBuffer.AheadKept` | libcomm_net/src/network/sn_socket_impl.cpp:1142-1176 | a number ahead of a gap gets a slot that is empty or already holds the same packet |
| `ReorderBuffer.WindowKept` | libcomm_net/src/network/sn_socket_impl.cpp:1142-1176 | every number of the window ahead of the next is kept, in its slot and within the bounds |
| `ReorderBuffer.AcceptsWhatIsKept` | libcomm_net/src/network/sn_socket_impl.cpp:1142-1176 | accepted is everything up to latest + N, and one more exactly when nothing is buffered |
| `ReorderBuffer.DataStep` | libcomm_net/src/network/sn_socket_impl.cpp:1091-1182 | indices, bounds and slots represent the accepted set, given in numbers, after every data datagram within the window |
| `ReorderBuffer.NextHandsOver` | libcomm_net/src/network/sn_socket_impl.cpp:1046-1052 | a buffered packet that is handed over is the one with the number it stands for |
| `ReorderBuffer.NextStep` | libcomm_net/src/network/sn_socket_impl.cpp:1037-1061 | handing over keeps the representation, and ends only when nothing is left to hand over |
| `RmpInvariant.InitialInv` | libcomm_net/src/network/sn_socket_impl.cpp:639-664 | the invariant holds of every fresh system |
| `RmpInvariant.NoSpaceExactly` | libcomm_net/src/network/sn_socket_impl.cpp:805-808 | NO_SPACE exactly when tail - head = W - 1, and then nothing changes |
| `RmpInvariant.SendKeeps` | libcomm_net/src/network/sn_socket_impl.cpp:789-817 | `send` keeps the index order and the retained packets, with the new packet added |
| `RmpInvariant.CanSendKeeps` | libcomm_net/src/network/sn_socket_impl.cpp:871-940 | the loop stays within a tenth of the window of the head, stops only when blocked or refused, and its heartbeats carry the last number sent and the head |
| `RmpInvariant.BurstExactly` | libcomm_net/src/network/sn_socket_impl.cpp:871-940 | the loop puts exactly the packets up to the end of the queue, of a tenth of the window, or of what the socket takes on the wire, each once and in order |
| `RmpInvariant.BeatExactly` | libcomm_net/src/network/sn_socket_impl.cpp:874-896 | behind them a heartbeat follows exactly when the loop stopped for want of packets or of window and the interval has passed |
| `RmpInvariant.ResendMeaning` | libcomm_net/src/network/sn_socket_impl.cpp:1247-1259 | a retransmission is exactly the requested run of original packets, as far as the socket takes it |
| `RmpInvariant.AckStep` | libcomm_net/src/network/sn_socket_impl.cpp:1268-1306 | an acknowledgement keeps head <= sending + 1, because none exceeds what its receiver has got |
| `RmpInvariant.StepInv` | libcomm_net/src/network/sn_socket_impl.cpp:789-1306 | every step keeps indices, window contents, and the truth of every datagram and table entry |
| `RmpInvariant.RunInv` | libcomm_net/src/network/sn_socket_impl.cpp:789-1306 | so does every run, whatever is lost, repeated, reordered or evicted |
| `RmpDelivery.HeadBound` | libcomm_net/src/network/sn_socket_impl.cpp:1273-1306 | the head is at most one past what a tracked receiver has got |
| `RmpDelivery.TrackedStep` | libcomm_net/src/network/sn_socket_impl.cpp:789-1306 | every step keeps buffer, window bound and deliveries of a tracked receiver right |
| `RmpDelivery.EndToEnd` | libsmart_net/src/smart_net/sn_endpoint_impl.cpp:1255-1263 | end-to-end safety: a tracked receiver has handed over the first k packets taken by `send`, in order, no gap, no repeat, and never an empty slot |
| `RmpDelivery.WindowBound` | libcomm_net/src/network/sn_socket_impl.cpp:874-896 | a data number on the wire is at most L + 1 + W/10 <= L + 1 + N, and its slot is empty or holds that packet |
| `RmpRecovery.StepGrows` | libcomm_net/src/network/sn_socket_impl.cpp:789-1306 | no step takes anything back: indices, sent packets, network, deliveries |
| `RmpRecovery.SenderIndices` | libcomm_net/src/network/sn_socket_impl.cpp:870-940 | over whole runs: head <= sending + 1 <= tail, tail - head <= W - 1, the unsigned subtraction does not wrap, nothing falls |
| `RmpRecovery.HeadPasses` | libcomm_net/src/network/sn_socket_impl.cpp:1284-1306 | the head passes a number only when every receiver left in the table has confirmed it |
| `RmpRecovery.SlotReuse` | libcomm_net/src/network/sn_socket_impl.cpp:805-812 | a slot is overwritten only when the head has passed its old packet |
| `RmpRecovery.LoneReceiverTracked` | libcomm_net/src/network/sn_socket_impl.cpp:1273-1306 | a lone receiver is tracked along every run |
| `RmpRecovery.EndToEndLone` | libsmart_net/src/smart_net/sn_endpoint_impl.cpp:1255-1263 | end-to-end safety for one receiver without any hypothesis |
| `RmpRecovery.NakGranted` | libcomm_net/src/network/sn_socket_impl.cpp:1236-1259 | a request of a tracked receiver that has not moved past it is in range and answered in full |
| `RmpRecovery.GapNakExact` | libcomm_net/src/network/sn_socket_impl.cpp:848-864 | what the timer puts out: a request exactly when something is buffered and the interval has passed, for the whole gap and no accepted number, ending just below one, and in the sender's range |
| `RmpRecovery.SuppliedIsReceived` | libcomm_net/src/network/sn_socket_impl.cpp:1096-1134 | numbers supplied in order close the gap, however the run is interleaved |
| `RmpRecovery.RequestGranted` | libcomm_net/src/network/sn_socket_impl.cpp:1187-1262 | a heartbeat carrying n makes the receiver ask for [L+1, n], and the sender puts all of it on the wire |
| `RmpRecovery.RecoveryRound` | libcomm_net/src/network/sn_socket_impl.cpp:1091-1259 | after any run that supplies it in order, everything up to n is received, and handed over once drained |
| `RmpRecovery.DrainEnds` | libsmart_net/src/smart_net/sn_endpoint_impl.cpp:1256-1263 | the drain loop ends by its own steps |
| `RmpRecovery.RecoveryPossible` | libcomm_net/src/network/sn_socket_impl.cpp:1187-1259 | from any state with a heartbeat carrying n on the wire, a tracked receiver can get and hand over 1..n |
| `RmpLiveness.OutOnWire` | libcomm_net/src/network/sn_socket_impl.cpp:789-1306 | what an event emits, over which fairness is stated, is exactly what its step adds to the network |
| `RmpLiveness.Progresses` | libcomm_net/src/network/sn_socket_impl.cpp:871-1262 | while something multicast is missing, heartbeat, request and retransmission bring a tracked receiver the next number, if what is emitted for ever arrives for ever |
| `RmpLiveness.Reaches` | libcomm_net/src/network/sn_socket_impl.cpp:871-1262 | so its last in-order number reaches every number that has been multicast |
| `RmpLiveness.AllHandedOver` | libsmart_net/src/smart_net/sn_endpoint_impl.cpp:1255-1263 | liveness: in every fair execution a tracked receiver gets and hands over every packet that is multicast, in order |
| `RmpLiveness.AllHandedOverLone` | libsmart_net/src/smart_net/sn_endpoint_impl.cpp:1255-1263 | the same for a lone receiver, from the start and without a hypothesis about the table |
| `RmpLiveness.MovesOrBeats` | libcomm_net/src/network/sn_socket_impl.cpp:870-940 | called with room, the sending loop multicasts something, or is blocked and then sends the heartbeat that is due |
| `RmpLiveness.AckMovesHead` | libcomm_net/src/network/sn_socket_impl.cpp:1268-1306 | with one receiver, every acknowledgement leaves the head past the number acknowledged |
| `RmpLiveness.RepeatedAckStops` | libcomm_net/src/network/sn_socket_impl.cpp:1276-1281 | so the same number acknowledged once more meets the assertion |
| `RmpLiveness.NeverRests` | libcomm_net/src/network/sn_socket_impl.cpp:826-943 | while `send` has taken more than a lone receiver has got, receiver and sender cannot both come to rest |
| `RmpLiveness.AllSentHandedOver` | libsmart_net/src/smart_net/sn_endpoint_impl.cpp:1255-1263 | liveness from `send` on, exactly: in every fair execution with one receiver every packet taken is multicast, received and handed over in order if and only if the window is ten or more |
| `RmpLimits.WedgedExactly` | libcomm_net/src/network/sn_socket_impl.cpp:964-967 | a receiver is left with a block that is not reset exactly by an in-order empty packet |
| `RmpLimits.WedgedForGood` | libcomm_net/src/network/sn_socket_impl.cpp:956-967 | and then receives nothing more in any run |
| `RmpGroup.OverrunFails` | libcomm_net/src/network/sn_socket_impl.cpp:1096-1177 | a fresh receiver with any buffer of N > 1 slots that gets N + 3, 2 and 1 keeps each in an empty slot, and hands over packet N + 3 in place of packet 3 |
| `RmpGroup.SecondReceiverFails` | libcomm_net/src/network/sn_socket_impl.cpp:1268-1306 | two receivers, a window of ten or more and a buffer of more than one slot: some run that passes every assertion releases N + 3 packets to one receiver and makes the other hand over out of order |
| `RmpGroup.SmallGroupSafe` | libcomm_net/src/network/sn_socket_impl.cpp:874-896 | with at most one receiver, or a window below ten, every run is safe |
| `RmpGroup.OneSlotStep` | libcomm_net/src/network/sn_socket_impl.cpp:1091-1182 | a buffer of one slot holds at most one packet, the one its bounds name, as long as the assertion on the slot passes |
| `RmpGroup.OneSlotSafe` | libcomm_net/src/network/sn_socket_impl.cpp:1173 | so a receiver with one slot is safe in every run that no assertion stops, tracked or not |
| `RmpGroup.SafeExactly` | libsmart_net/src/smart_net/sn_endpoint_impl.cpp:1255-1263 | end-to-end safety, exactly: all receivers are safe in all runs that pass the assertions if and only if there is at most one, or the window is below ten, or every buffer has one slot |
| `MemBlock.Mem.constructor` | libcomm_utils/src/memory/mem.h:22-25 | an empty block at its initial offset |
| `MemBlock.Mem.MoveDataAhead` | libcomm_utils/src/memory/mem.h:47-54 | contents kept, bytes in front forgotten |
| `MemBlock.Mem.DecHeadData` | libcomm_utils/src/memory/mem.h:55-59 | bytes move from the head of the contents to the front |
| `MemBlock.Mem.IncHeadData` | libcomm_utils/src/memory/mem.h:122-132 | bytes come back from the front exactly when there are enough |
| `MemBlock.Mem.AppendBytes` | libcomm_utils/src/memory/mem.h:104-120 | appends in place, moving the contents first when the tail is short, or refuses |
| `MemBlock.Mem.IncLen` | libcomm_utils/src/memory/mem.h:64-67 | bytes already behind the contents become part of them |
| `MemBlock.Mem.FillTail` | libcomm_utils/src/memory/mem.h:60-67 | bytes received behind the contents become part of them |
| `MemBlock.Mem.Reset` | libcomm_utils/src/memory/mem.h:134-140 | empties the block at offset 0 or at the initial one |
| `MemBlock.AppendMeaning` | libcomm_utils/src/memory/mem.h:104-120 | `append` succeeds exactly when the total free space suffices, and yields old followed by new |
| `MemBlock.IncUndoesDec` | libcomm_utils/src/memory/mem.h:55-59 | `inc_head_data` undoes `dec_head_data`, with data appended in between staying behind |
| `MemBlock.MoveForgets` | libcomm_utils/src/memory/mem.h:47-54 | after a move nothing can be taken back |
| `Package.RoundTrip16` | libsmart_net/src/smart_net/pkg.h:81-84 | the 16-bit network order reads back what was written |
| `Package.RoundTrip32` | libsmart_net/src/smart_net/pkg.h:90-97 | the 32-bit network order reads back what was written |
| `Package.HeaderRoundTrip` | libsmart_net/src/smart_net/pkg.h:72-97 | a written header reads back, whatever the padding and whatever follows |
| `Package.LayoutExactly` | libsmart_net/src/smart_net/pkg.h:72-117 | byte by byte: length and opcode in network order, the tag in host order, padding untouched |
| `Package.SetLen` | libsmart_net/src/smart_net/pkg.h:90-93 | setting the length changes no other field |
| `Package.SetTag` | libsmart_net/src/smart_net/pkg.h:99-102 | setting the tag changes no other field |
| `Package.SetKind` | libsmart_net/src/smart_net/pkg.h:114-117 | setting the type changes no other field |
| `Archive.Archiver.constructor` | libsmart_net/src/smart_net/archive.h:33-36 | a new archive holds an empty package |
| `Archive.Archiver.GetHdr` | libsmart_net/src/smart_net/archive.h:48-66 | the header is constructed once, in a new block |
| `Archive.Archiver.SetTag` | libsmart_net/src/smart_net/pkg.h:99-102 | the tag of the package, nothing else, also while a body is being written |
| `Archive.Archiver.GetNextBody` | libsmart_net/src/smart_net/archive.h:68-93 | commits the previous body; room for another exactly when the largest fits |
| `Archive.Archiver.WriteBody` | libsmart_net/src/smart_net/archive.h:90-92 | what is written into the room is the pending body |
| `Archive.Archiver.BodyReady` | libsmart_net/src/smart_net/archive.h:144-155 | the pending body becomes part of the package, a body of size zero nothing |
| `Archive.Archiver.Serialize` | libsmart_net/src/smart_net/archive.h:103-140 | the block holds exactly the committed bodies behind a header with length, opcode, tag, version |
| `Framing.ParseResumes` | libsmart_net/src/smart_net/dispatcher.h:88-133 | parsing is incremental: the rest in front of new bytes yields the rest of the whole |
| `Framing.ParseStaysClosed` | libsmart_net/src/smart_net/dispatcher.h:127-132 | a stream that has gone wrong stays wrong |
| `Framing.FragmentationIndependent` | libsmart_net/src/smart_net/dispatcher.h:88-133 | any cut into chunks gives the same calls and the same unfinished rest |
| `Framing.PiecesParsed` | libsmart_net/src/smart_net/dispatcher.h:88-133 | pieces that are taken whole make their calls in order |
| `Dispatcher.RuleIsSound` | libsmart_net/src/smart_net/dispatcher.h:92-126 | what is found at the front is decided by the front alone, and makes progress |
| `Dispatcher.BodiesExtend` | libsmart_net/src/smart_net/dispatcher.h:61-73 | bytes behind a package do not change its bodies |
| `Dispatcher.DispatchBodies` | libsmart_net/src/smart_net/dispatcher.h:61-73 | the body loop hands over every body with its tag and takes exactly the package off the block |
| `Dispatcher.DispatchFront` | libsmart_net/src/smart_net/dispatcher.h:92-126 | one round of the framing loop: bad header, header only, incomplete, unknown opcode, whole package |
| `Dispatcher.Dispatch` | libsmart_net/src/smart_net/dispatcher.h:88-133 | the framing loop makes exactly the calls of the parsed stream, leaves exactly its rest, and closes exactly on an unreadable package |
| `Dispatcher.EndsExactly` | libsmart_net/src/smart_net/dispatcher.h:88-133 | a pass that meets no malformed body ends closed exactly at a header that is wrong or of a whole package of an unknown kind, and open exactly at an unfinished package |
| `Stream.ArchivedIsReadable` | libsmart_net/src/smart_net/archive.h:103-140 | what an archive serializes can be read where its kind is registered |
| `Stream.PackageTaken` | libsmart_net/src/smart_net/dispatcher.h:88-126 | a whole package at the front is taken with exactly its calls |
| `Stream.UnfinishedStops` | libsmart_net/src/smart_net/dispatcher.h:110-115 | an unfinished package stops the pass and keeps the connection open |
| `Stream.RoundTrip` | libsmart_net/src/smart_net/dispatcher.h:88-133 | concatenated packages parse back to their bodies with their tags, header-only ones to nothing |
| `Stream.PrefixParsed` | libsmart_net/src/smart_net/dispatcher.h:88-133 | any first part of the stream gives the calls of its whole packages and leaves exactly the unfinished one |
| `Stream.ChunksParsed` | libsmart_net/src/smart_net/dispatcher.h:88-133 | the same for any cut of it into chunks |
| `Stream.RoomIsLeft` | libsmart_net/src/smart_net/dispatcher.h:110-115 | what is left is strictly shorter than a block, if every package was built inside one |
| `RupSock.Sock.constructor` | libcomm_net/src/network/sn_socket_impl.cpp:84-91 | a new socket has nothing queued |
| `RupSock.Sock.HandleCanSend` | libcomm_net/src/network/sn_socket_impl.cpp:256-369 | wire, queue and cache together keep every byte in place; whole new state, how many bytes leave, and the result, for every sequence of answers |
| `RupSock.DrainedKeeps` | libcomm_net/src/network/sn_socket_impl.cpp:278-366 | a pass keeps the stream of wire and queues, puts on the wire what the answers allow, and succeeds exactly when nothing is left |
| `RupSock.Sock.Enqueue` | libcomm_net/src/network/sn_socket_impl.cpp:156-169 | queued data goes behind all other data, into the last block if it has room |
| `RupSock.Sock.Send` | libcomm_net/src/network/sn_socket_impl.cpp:151-251 | queued, or sent directly past the queue being sent; what a full or failing socket refuses is not kept |
| `RupSock.Sock.SendBytes` | libcomm_net/src/network/sn_socket_impl.cpp:371-479 | the same for bytes in a new block: whole new state, wire, result, and what is lost or overtakes |
| `RupSock.SendToMeaning` | libcomm_net/src/network/sn_socket_impl.cpp:151-251 | queued sends append to the stream; a direct send puts its first bytes in front of the queue and keeps the rest only if some were taken |
| `RupSock.QueuedBehind` | libcomm_net/src/network/sn_socket_impl.cpp:164-186 | coalescing into the last block or adding a block appends exactly the new bytes |
| `RupSock.CoalescesExactly` | libcomm_net/src/network/sn_socket_impl.cpp:156-169 | the last block takes the data exactly when it has room for all of it |
| `RupSock.ProgressExactly` | libcomm_net/src/network/sn_socket_impl.cpp:278-366 | bytes leave exactly when the first answer that is no interruption has room; success exactly when all have left |
| `RupSock.AnsweredExactly` | libcomm_net/src/network/sn_socket_impl.cpp:278-366 | how many bytes leave and what is reported: whole blocks for as many answers with room for them, then all sent, no answer, a failure, or a part of the next block |
| `RupSock.DirectInOrderExactly` | libcomm_net/src/network/sn_socket_impl.cpp:191-250 | the direct branch keeps the order of all data exactly when the queue being sent is empty and the socket takes a byte |
| `RupSock.RunConserves` | libcomm_net/src/network/sn_socket_impl.cpp:151-479 | over whole runs of queued sends, direct sends and writable events in which each send keeps order, wire and queues hold exactly all bytes sent, in order |
| `RupSock.RunFromEmpty` | libcomm_net/src/network/sn_socket_impl.cpp:151-479 | from an empty socket the wire is then a first part of all bytes sent, and all of them once nothing is queued |
| `RupSock.Run` | libcomm_net/src/network/sn_socket_impl.cpp:151-479 | any uses of a socket leave the state they lead to; conservation whenever every send is made in a situation that keeps order |
| `RupReceive.Inbox.HandleCanRecv` | libcomm_net/src/network/sn_socket_impl.cpp:481-545 | what fits of the arrived bytes goes behind what is left; a full block looks like a shutdown |
| `RupReceive.HandleInput` | libsmart_net/src/smart_net/sn_endpoint_impl.cpp:986-1009 | one readable event: at least one byte is taken, and calls and rest are those of all data so far |
| `RupReceive.Session` | libsmart_net/src/smart_net/sn_endpoint_impl.cpp:986-1009 | the whole receiving side: never stalls, and calls the handler for exactly the whole packages received |
| `RupReceive.UnicastEndToEnd` | libsmart_net/src/smart_net/sn_endpoint_impl.cpp:986-1020 | sender to handler, both sockets at work: one end sends archived packages in uses that keep order, the other receives from its wire; the handler gets exactly the calls of the first n packages, and of all once the queues are empty and all has been taken |
| `Connector.RupConnector.RegEvtState` | libcomm_utils/src/utils/state_machine.hpp:27-38 | a transition is registered once; a second registration is refused |
| `Connector.RupConnector.constructor` | libsmart_net/src/smart_net/sn_endpoint_impl.cpp:295-327 | the table holds exactly the sixteen transitions, and the machine is closed |
| `Connector.RupConnector.PostEvt` | libcomm_utils/src/utils/state_machine.hpp:41-65 | look-up, handler, target state unless the handler failed: exactly the case-by-case reference, with the engine request made |
| `Connector.RupConnector.Handle` | libsmart_net/src/smart_net/sn_endpoint_impl.cpp:458-690 | what each handler does on its own |
| `Connector.RupConnector.DeledFromOTNormal` | libsmart_net/src/smart_net/sn_endpoint_impl.cpp:624-683 | close, drop or hand over once the socket is out of the output task |
| `Connector.RupConnector.HandOver` | libsmart_net/src/smart_net/sn_endpoint_impl.cpp:644-679 | the loop over the idle endpoints |
| `Connector.RowPosts` | libcomm_utils/src/utils/state_machine.hpp:53-62 | running the registered handler and taking the registered state is the reference, overriding handlers included |
| `Connector.HandMeaning` | libsmart_net/src/smart_net/sn_endpoint_impl.cpp:644-679 | the connection goes to the first willing endpoint and to nobody else |
| `ConnectorFate.TimerFate` | libsmart_net/src/smart_net/sn_endpoint_impl.cpp:475-495 | whatever comes while the timer is added, the connector goes on exactly when nobody has closed it |
| `ConnectorFate.OutputFate` | libsmart_net/src/smart_net/sn_endpoint_impl.cpp:516-590 | whatever comes while the socket is added, the last close or error decides |
| `ConnectorFate.UndecidedFate` | libsmart_net/src/smart_net/sn_endpoint_impl.cpp:306-318 | until a close, error or success comes, the connector waits |
| `ConnectorFate.ConnectingFate` | libsmart_net/src/smart_net/sn_endpoint_impl.cpp:554-683 | after a success the first willing endpoint gets the connection unless an error or a close comes before the socket is out; after an error it is tried again unless closed; after a close it ends |
| `ConnectorFate.IdleExactly` | libsmart_net/src/smart_net/sn_endpoint_impl.cpp:644-679 | endpoints leave the idle list only when a connection is handed over |
| `Notifier.Epoll.AddIoObj` | libsmart_net/src/framework/sn_io_evt_notifier_impl.cpp:117-128 | queued for addition, unless it has no events |
| `Notifier.Epoll.DelIoObj` | libsmart_net/src/framework/sn_io_evt_notifier_impl.cpp:130-141 | queued for deletion, unless it has no events |
| `Notifier.Epoll.EraseQueued` | libsmart_net/src/framework/sn_io_evt_notifier_impl.cpp:145-167 | the delete loop over the cache as found, with what its callbacks ask for kept |
| `Notifier.Epoll.InsertQueued` | libsmart_net/src/framework/sn_io_evt_notifier_impl.cpp:169-197 | the add loop over the cache as found, refused objects left out, with what its callbacks ask for kept |
| `Notifier.Epoll.Exec` | libsmart_net/src/framework/sn_io_evt_notifier_impl.cpp:143-198 | one round: members and callbacks, deletions first, refused objects reported and left out; what callbacks ask for in the round is served in it or kept for the next; the reported count is what an undisturbed round leaves |
| `Notifier.EraseAllMeans` | libsmart_net/src/framework/sn_time_notifier.cpp:46-62 | the delete loop removes exactly the queued objects |
| `Notifier.InsertAllMeans` | libsmart_net/src/framework/sn_time_notifier.cpp:65-81 | the add loop adds exactly the queued objects that are not refused |
| `Notifier.InsertAllSize` | libsmart_net/src/framework/sn_io_evt_notifier_impl.cpp:169-197 | distinct strangers that are all accepted make as many new members |
| `Notifier.CountKept` | libsmart_net/src/framework/sn_io_evt_notifier_impl.h:70 | set + add cache - delete cache is the number of members a round without refusals leaves |
| `Notifier.AdvanceView` | libsmart_net/src/framework/sn_time_notifier.cpp:44-81 | what a single step of the thread does to one object |
| `Notifier.AloneIsExec` | libsmart_net/src/framework/sn_io_evt_notifier_impl.cpp:143-198 | the single steps taken without interruption are the round, with the same callbacks in the same order |
| `ConnectorSystem.PostKeeps` | libsmart_net/src/smart_net/sn_endpoint_impl.cpp:458-690 | every event keeps state and registrations in agreement, through the overriding handlers, and meets the handlers' assertions |
| `ConnectorSystem.StepInv` | libsmart_net/src/smart_net/sn_endpoint_impl.cpp:298-322 | every step of users, timer task and output task that does not refuse this connector keeps its registrations determined by its state, whatever happens to others |
| `ConnectorSystem.RunInv` | libsmart_net/src/smart_net/sn_endpoint_impl.cpp:298-322 | so does every run in which the kernel accepts this connector's socket |
| `ConnectorSystem.ClosedIsNowhere` | libsmart_net/src/smart_net/sn_endpoint_impl.cpp:298-322 | in reachable states a closed connector is in no set, cache or round of either task |
| `ConnectorSystem.AssertionsHold` | libsmart_net/src/framework/sn_time_notifier.cpp:57-81 | the insert and erase assertions hold for connectors, and those of the handlers |
| `ConnectorClose.CloseTakes` | libsmart_net/src/smart_net/sn_endpoint_impl.cpp:357-360 | a close is accepted and under way, or there is nothing left to close |
| `ConnectorClose.StepRank` | libsmart_net/src/smart_net/sn_endpoint_impl.cpp:475-690 | every completion callback lowers the rank by one, and nothing else changes it |
| `ConnectorClose.ClosedAfterThree` | libsmart_net/src/smart_net/sn_endpoint_impl.cpp:475-690 | after as many callbacks as the rank says, three at most, and not before, the connector has been closed |
| `ConnectorClose.AdvanceCloser` | libsmart_net/src/framework/sn_time_notifier.cpp:44-81 | every step of the thread brings a due callback closer |
| `ConnectorClose.Await` | libsmart_net/src/framework/sn_time_notifier.cpp:44-81 | the steps of one thread alone can bring the callback a connector waits for |
| `ConnectorClose.CloseCompletesExactly` | libsmart_net/src/smart_net/sn_endpoint_impl.cpp:475-690 | in every execution in which both threads keep running, a closing connector becomes closed if and only if its own socket is not refused first |
| `ConnectorClose.RefusedIsStuck` | libsmart_net/src/smart_net/sn_endpoint_impl.cpp:383-395 | a refused socket leaves the connector in its adding state, with nothing owed to it but the news |
| `ConnectorClose.RefusalTold` | libsmart_net/src/smart_net/sn_endpoint_impl.cpp:383-395 | being told records the error as pending and leaves nothing owed |
| `ConnectorClose.StuckForEver` | libsmart_net/src/smart_net/sn_endpoint_impl.cpp:306-308 | and no run whatever gets it out of that state |
| `ConnectorClose.RefusalReachable` | libsmart_net/src/smart_net/sn_endpoint_impl.cpp:458-540 | from empty notifiers a closed connector can be brought to where its insertion into the output task is refused |
| `ConnectorClose.LeftBehindExactly` | libsmart_net/src/smart_net/sn_endpoint_impl.cpp:554-598 | a connector without output registration holds a socket exactly after the deletion a close has caused, until the next connect |
| `ConnectorClose.LeftBehindInRuns` | libsmart_net/src/smart_net/sn_endpoint_impl.cpp:554-598 | over whole runs: exactly when a close has deleted the socket from the output task since the last connect |
| `ConnectorClose.NoSockAssertsExactly` | libsmart_net/src/smart_net/sn_endpoint_impl.cpp:501-514 | the no-socket assertions of a connector that checks its timer fail in a run from empty notifiers if and only if that has happened |
| `ConnectorClose.ReopenedWithSock` | libsmart_net/src/smart_net/sn_endpoint_impl.cpp:501-598 | from any state in which the socket is being added to the output task or connecting, a run of close and open makes them fail |
| `RwLock.StepInv` | libcomm_utils/src/utils/rw_lock.h:24-46 | permits + readers + permits of writers is constant under every step |
| `RwLock.RunInv` | libcomm_utils/src/utils/rw_lock.h:24-46 | and over every run, for any number of threads and permits |
| `RwLock.Exclusion` | libcomm_utils/src/utils/rw_lock.h:34-46 | a writer inside excludes all readers and writers, and all other permits |
| `RwLock.ExcludesExactly` | libcomm_utils/src/utils/rw_lock.h:34-46 | it does so in every run exactly when there is at least one permit |
| `RwLock.EntersExactly` | libcomm_utils/src/utils/rw_lock.h:24-40 | a reader gets in exactly while not all permits are held, a writer comes first exactly while no other is acquiring, and gets a permit exactly while one is free |
| `RwLock.ReadersExactly` | libcomm_utils/src/utils/rw_lock.h:24-32 | k readers can be in together exactly when the lock has k permits |
| `RwLock.WriterGetsIn` | libcomm_utils/src/utils/rw_lock.h:34-46 | an acquiring writer gets in by its own steps and those with which the others leave |
| `RwLock.BlockedByRunning` | libcomm_utils/src/utils/rw_lock.h:34-40 | an acquiring writer waits only while another thread that can go on holds a permit |
| `RwLock.NoDeadlock` | libcomm_utils/src/utils/rw_lock.h:24-46 | while anybody is in the lock, somebody can go on and gets closer to leaving |
| `Balance.Engine.SelectLeast` | libsmart_net/src/framework/sn_engine.cpp:158-174 | the loop with its early break finds the first task that reports zero, else the first of the least, over members, add and delete caches |
| `Balance.PicksLeastExactly` | libsmart_net/src/framework/sn_engine.cpp:158-174 | that is the first of the least exactly when there is no zero beside a negative count |
| `Balance.Engine.AddEndpoint` | libsmart_net/src/framework/sn_engine.cpp:144-205 | the object goes to that task's cache, and no other task changes: a step of the runs below |
| `Balance.Engine.AddEndpoints` | libsmart_net/src/framework/sn_engine.cpp:144-205 | any number of objects given to empty tasks end up in equal shares, rounded down or up |
| `Balance.AdvanceKeeps` | libsmart_net/src/framework/sn_io_evt_notifier_impl.cpp:143-179 | a step of a task's thread changes no load |
| `Balance.StepBalancedExactly` | libsmart_net/src/framework/sn_engine.cpp:154-200 | a step keeps the loads within one of each other exactly when it is a thread's or adds to a task that is least loaded, hidden objects included |
| `Balance.RunBalancedExactly` | libsmart_net/src/framework/sn_engine.cpp:154-200 | a run is balanced at every point if and only if every addition goes to such a task |
| `Balance.RunBalanced` | libsmart_net/src/framework/sn_engine.cpp:154-200 | so every run in which objects arrive while no thread is inserting is balanced at every point |
| `Balance.RunTotal` | libsmart_net/src/framework/sn_io_evt_notifier_impl.h:70 | the loads add up to the number of objects given out |
| `Balance.EvenShares` | libsmart_net/src/framework/sn_engine.cpp:154-200 | after such a run every task has its share of the objects, rounded down or up |
| `Balance.UnevenMidRound` | libsmart_net/src/framework/sn_engine.cpp:154-200 | additions in the middle of a round can end three to one |

## Left out

- RmpReceiver.RecvSock: the opcode and source checks, the sender address and the byte layout of the multicast headers; datagrams are values.
- RmpReceiver.RecvSock.HandleHeartbeat: a socket that refuses a request counts as loss of the request.
- RmpReceiver.RecvSock.HandleData: the assertions in front of the handled branches (sn_socket_impl.cpp:1161, 1173) are not claimed; repeated retransmissions reach the second.
- RmpSender.SendSock.HandleNak: the assertion in front of the discarding branch (1239) is not claimed, and the retry on a full socket is one answer of the socket.
- RmpSender.SendSock.HandleAck: the assertion at 1278 is not claimed; repeated acknowledgements reach it.
- RmpSender.SendSock.EvictExpired: describes the table as a `std::map`; the build selects `google::dense_hash_map` (defines.h:64, sn_socket_impl.h:268) with only an empty key set (sn_socket_impl.cpp:651), and that container asks for a deleted key before anything is erased, which is not part of this model. `RmpSender.SendSock.HandleAck`, `RmpSender.ScanMeaning` and `RmpSender.AckTable` describe evictions in the same sense.
- RmpLiveness.AllHandedOver: speaks of executions without empty packets, because one that arrives in order stops the receiver (`RmpLimits.WedgedForGood`); that heartbeats keep coming and that a socket takes a whole retransmission are hypotheses.
- RmpLiveness.AllSentHandedOver: the same about empty packets and retransmissions; the assertions in front of handled branches (1173, 1278) are taken as passed, and `RmpLiveness.RepeatedAckStops` shows that the second is met.
- RmpSender.SendSock.Send: on NO_SPACE the original has already taken the header space back, so the caller cannot retry with the same block; the model keeps the packet as it was.
- RmpSender.SendSock.HandleCanSend: an empty slot ends the loop where the original would dereference it; `RmpInvariant.CanSendKeeps` shows that none is met.
- RmpRecovery.HeadPasses: a receiver that joins late gets a table entry without having confirmed what was released before, so the statement is about the moment the head passes a number.
- Rate control (its consumer is compiled out), the request counters, and sequence numbers beyond 2^64.
- Multicast group membership, socket options, logging, files, clocks as such, and the scatter/gather branches that the build does not select.
- RupSock.Sock: queued blocks are values; the methods of `MemBlock.Mem` are proved to compute those values, but sharing of a block between the queue and its former owner is not captured.
- RupSock.Sock.Send: one call is one step; another thread that queues between the socket call and the return of the remainder is not modelled.
- RupSock.Sock.SendBytes: asks for 1 to 32768 bytes, which is what a block holds and the socket accepts without tripping an assertion.
- Dispatcher.Dispatch: asks that no package at the front has a body of size zero or one that reaches past the package; on those the original does not terminate or reads past the package.
- Dispatcher.DispatchFront: asks the same of the package at the front.
- Dispatcher.DispatchBodies: asks the same of the bodies it is given.
- Archive.Archiver.GetNextBody: the estimated count of bodies only chooses an allocation size that is ignored.
- Notifier.Epoll.Exec: also stands for the round of `CTimeNotifier`, which refuses nothing.
- ConnectorSystem.StepInv: one output task; the engine's own start and stop states, and the missing return statements of `add_timer`, `del_timer` and `del_endpoint`, which are taken as success.
- Connector.RupConnector.Handle: opening the socket succeeds; the address and interval parameters are not modelled.
- Registration of `CRupEndpoint`, `CRmpEndpoint` and `CRupAcceptor`, some of whose failure paths do not keep it.
- RwLock.StepInv: threads are steps of a transition system rather than calls of a class, because the methods block.
- Balance.RunBalancedExactly: runs without deletions; with them a count can even be negative, for which `Balance.PicksLeastExactly` says what the engine's loop still finds.
- The delegate templates, smart pointers, singletons, the ring buffer class and everything in smart_pbx.
