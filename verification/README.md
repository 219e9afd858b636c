# Verification of the modem data path and control plane

A Dafny model of the Quectel modem software this firmware ships: the QMAP data path of the GobiNet
driver, the three proxies that let several programs share one modem, the AT channel, the QMI message
layer and the connection manager's event loop. Where the C code changes an object or a buffer in
place, the model has a class or an array with methods that do the same, each proved against a
function; the properties of interest are lemmas about those functions and about whole runs.

`dafny verify dfyconfig.toml` checks everything.

| file | what it models |
|---|---|
| Common.dfy | bytes, optional values, concatenation |
| QmapFrame.dfy | QMAP v1 and v5 headers, and the downlink loop that takes aggregates apart |
| QmapAgg.dfy | the lock-protected uplink aggregator |
| QmapRuns.dfy | runs of transmits, timer and flush work; end-to-end round trip |
| QList.dfy | the intrusive circular list, on heap nodes |
| QmiProxy.dfy, QmiProxyRuns.dfy | the QMI proxy and its runs against a modem |
| CtlQueue.dfy | the QMI proxy's control queue on the intrusive list |
| IdTable.dfy, QrtrProxy.dfy, QrtrRuns.dfy | the QRTR proxy's id tables, handlers and runs |
| MbimProxy.dfy | the MBIM proxy and its runs |
| AtReader.dfy, AtResponse.dfy, AtChannel.dfy | the AT line reader, response assembly, and both together |
| AtTok.dfy | the AT tokenizer |
| QmiRendezvous.dfy | one request slot shared by the sending and the reading thread |
| QmiTlv.dfy | building the start-network request and the two TLV lookups |
| ConnManager.dfy | the connection manager's event loop |

## Where the code departs from its intent

Each of these is kept as the code has it, with the exact condition proved.

- QMI proxy, `cleanup_qmi_connection`: closing a connection whose request is at the modem takes it off
  the queue without sending the next one; the answer then makes the proxy drop a request of another
  connection (`CloseKeepsHeadExactly`, `CloseInFlightLosesRequest`). Of several queued requests only the
  first is taken off. The run theorems let a connection close exactly when it has at most one request
  queued and that one is not at the modem (`CloseKeepsInvExactly`).
- QMI proxy: releasing an id that somebody else holds unbalances the accounts (`ReleaseConservesExactly`).
  In runs a client's release that the modem performs names an id of its own, or nobody's; clients may ask
  for what they like, and the modem may refuse anything.
- QMI proxy, lines 365-370: the proxy does not look at the answer to a release of its own. If the modem
  refuses it, the id stays granted, and nobody holds it any more (`RefusalLosesExactly`,
  `RefusedReleaseLosesId`).
- QMI proxy, line 399: the test for indications compares the service type, which is 0 for control
  messages, so a modem reset is never noticed (`ResetNeverNoticed`).
- QRTR proxy: port 256 does not fit the byte that should mark it (`GetKeepsPortsExactly`,
  `IdBeyondByte`, `PortSharedAfter257`); a client id request refused for want of ids still leaves a record
  with id 0 and a port (`GrantFailsExactly`); and DEL_SERVER unlinks a node that is in no list, so services
  are never removed (`RemoveFresh`, `ServicesListed`).
- MBIM proxy: ids of 2^24 and more lose their top byte (`TagExact`), and a late reply goes to whoever
  has the slot by then (`ReplyReachesSlot`).
- AT reader: a read that ends just after `> ` at the start of a line is taken for the SMS prompt
  (`PromptSplitsExactly`, `DivisionMatters`), and a line that does not fit the buffer loses what filled it
  (`OverflowDiscards`). `ReadlineExact` says when a call does not depend on the division into reads. After
  a prompt the reader steps past the terminator, contrary to the comment in the source, and reads on in
  whatever the buffer held before (`TakeLine`); out of a full buffer, where `ReaderLoop` stops. The model's
  buffer has one byte more than a read may fill, for the terminator.
- Tokenizer: a field of no characters at the end of a line is not returned (`RoundTripExact`).
- QMI rendezvous: a request still unanswered when the next is sent is never freed
  (`FreedExactly`, `AbandonedNeverFreed`); and the reply to a request that timed out is returned to the
  call 65535 requests later, if it comes then (`LateReplyReturned`).
- AT commands: a line that comes after the final result, but before the command's thread has woken up,
  can still change the response (`LateLineHarmlessExactly`), and raw data that got no cue waits on, for a
  later command (`SendCommand`).
- Driver's `GetTLV`: an empty TLV at the very end of a message is not seen (`LookupsAgreeExactly`).
- Connection manager: a call that is neither connected nor disconnected leaves an old link standing
  (`CheckSetsLinkExactly`).
- Connection manager: an AT-command start queries the IPv4 status before the loop, so the families'
  statuses differ until the first check or dial (`FamiliesAgreeExactly`).
- Receive handler: a mux id below 0x81, a packet length below its padding and a version 5 frame of
  length 0 at the end of the buffer lead outside the driver's arrays or to a negative size
  (`FaultExactly`, `FaultsHappen`). `Classify` calls these `Fault`, and the walk stops there.

## Model

| member | source | states |
|---|---|---|
| `QmapFrame.PadFor` | data/modify_modem/driver/quectel_Gobinet/src/GobiUSBNet.c:485-494 | the fewest bytes that align the packet, and none if and only if none are missing or the tail is too short for them |
| `QmapFrame.SkBuff.Put` | data/modify_modem/driver/quectel_Gobinet/src/GobiUSBNet.c:493-494 | tail bytes become packet bytes, unchanged |
| `QmapFrame.SkBuff.Push` | data/modify_modem/driver/quectel_Gobinet/src/GobiUSBNet.c:496-499 | the header is put in front of the packet |
| `QmapFrame.AddQhdr` | data/modify_modem/driver/quectel_Gobinet/src/GobiUSBNet.c:481-502 | the buffer becomes the version 1 frame of the packet, with the pad the tail allows |
| `QmapFrame.AddQhdrV5` | data/modify_modem/driver/quectel_Gobinet/src/GobiUSBNet.c:504-540 | the buffer becomes the version 5 frame of the packet, with the pad the tail allows |
| `QmapFrame.ParseFrame` | data/modify_modem/driver/quectel_Gobinet/src/GobiUSBNet.c:1642-1708 | one pass of the receive loop skips, rejects, faults or delivers exactly as the pure decision `Classify`, whose bounds and round trip are proved below |
| `QmapFrame.RxHandler` | data/modify_modem/driver/quectel_Gobinet/src/GobiUSBNet.c:1628-1767 | the receive loop and its queue hand up, in order, exactly the packets of the recursive walk `Deframe`; the loop ends because the rest gets shorter |
| `QmapFrame.Classify` | data/modify_modem/driver/quectel_Gobinet/src/GobiUSBNet.c:1659-1708 | an accepted frame lies inside the buffer and its packet has at most 1500 bytes |
| `QmapFrame.DeframeSlices` | data/modify_modem/driver/quectel_Gobinet/src/GobiUSBNet.c:1642-1752 | for any buffer: delivered packets are slices of it, in order, not overlapping, a header apart, at most 1500 bytes, for registered devices |
| `QmapFrame.HeaderFields` | data/modify_modem/driver/quectel_Gobinet/src/GobiUSBNet.c:187-232 | the fields the receiver reads from a header are those the sender wrote; a version 5 header is followed by one of type 2 that asks for nothing else |
| `QmapFrame.DeframeFrame` | data/modify_modem/driver/quectel_Gobinet/src/GobiUSBNet.c:1642-1752 | a framed packet with up to 63 pad bytes and the announced minimum padding behind it, in front of any bytes, is delivered as it was, and the rest is treated as if alone |
| `QmapFrame.DeframeItem` | data/modify_modem/driver/quectel_Gobinet/src/GobiUSBNet.c:1642-1752 | whatever a frame's header says: a command, or data for a mux id without a device, is stepped over, an acceptable data frame is delivered without its padding, and neither disturbs the rest |
| `QmapFrame.DeframeTruncated` | data/modify_modem/driver/quectel_Gobinet/src/GobiUSBNet.c:1665-1668 | every proper prefix of any frame delivers nothing and faults nowhere |
| `QmapFrame.DeframeUpToRejected` | data/modify_modem/driver/quectel_Gobinet/src/GobiUSBNet.c:1642-1752 | from any mixture of frames up to where the receiver stops exactly the packets of the acceptable data frames are delivered, in order |
| `QmapFrame.EveryBuffer` | data/modify_modem/driver/quectel_Gobinet/src/GobiUSBNet.c:1642-1752 | every buffer is such a mixture, so this says what is delivered for every buffer and every setting |
| `QmapFrame.FaultExactly` | data/modify_modem/driver/quectel_Gobinet/src/GobiUSBNet.c:1650-1700 | the handler leaves its arrays if and only if, behind frames it passes, a whole data frame stands with nothing behind its header, a mux id below the base, or less than its padding |
| `QmapFrame.FaultsHappen` | data/modify_modem/driver/quectel_Gobinet/src/GobiUSBNet.c:1650-1700 | a buffer for each of the three |
| `QmapFrame.RoundTripExact` | data/modify_modem/driver/quectel_Gobinet/src/GobiUSBNet.c:1656-1692 | a framed packet comes back if and only if it has 1 to 1500 bytes, version nibble 4 or 6, a registered mux id, and no minimum padding is in force |
| `QmapAgg.TxAggregator.constructor` | data/modify_modem/driver/quectel_Gobinet/src/GobiUSBNet.c:929-938 | aggregation starts switched off, with nothing held |
| `QmapAgg.TxAggregator.AdoptLimits` | data/modify_modem/driver/quectel_Gobinet/src/GobiUSBNet.c:810-816 | the modem's limits are adopted once, while the aggregator is empty |
| `QmapAgg.TxAggregator.LockedSection` | data/modify_modem/driver/quectel_Gobinet/src/GobiUSBNet.c:694-768 | one critical section leaves the aggregator, the claimed buffer and the left-over packet of `Section`; when that sends, what and to what clock, is `SectionSendsExactly` |
| `QmapAgg.TxAggregator.AggWork` | data/modify_modem/driver/quectel_Gobinet/src/GobiUSBNet.c:633-657 | the flush work sends what is held, all of it and once |
| `QmapAgg.TxAggregator.Round` | data/modify_modem/driver/quectel_Gobinet/src/GobiUSBNet.c:693-780 | a section with its transmission adds exactly the packet to the traffic, or leaves it over after emptying the aggregator |
| `QmapAgg.TxAggregator.TxAgg` | data/modify_modem/driver/quectel_Gobinet/src/GobiUSBNet.c:668-796 | with flushes in between: sent bytes then held bytes grow by exactly the packet, at most two sections run, an urgent packet leaves nothing held, and held traffic has its timer queued |
| `QmapAgg.SectionConserves` | data/modify_modem/driver/quectel_Gobinet/src/GobiUSBNet.c:694-768 | claimed, held and left-over bytes of a section are the bytes before it, in order; a packet is left over only when the aggregator was just emptied |
| `QmapAgg.ElapsedExactly` | data/modify_modem/driver/quectel_Gobinet/src/GobiUSBNet.c:700-735 | for limits below a second the test on seconds and nanoseconds holds if and only if more than the limit has passed |
| `QmapAgg.SectionSendsExactly` | data/modify_modem/driver/quectel_Gobinet/src/GobiUSBNet.c:690-768 | a section sends if and only if the packet does not fit, the aggregate is full or older than the limit, or the packet is urgent and last of its burst; with nothing held, after the bypass time, for an urgent packet or without memory; what it sends, what stays, and the time it notes |
| `QmapAgg.OldAggregateSent` | data/modify_modem/driver/quectel_Gobinet/src/GobiUSBNet.c:705-728 | an aggregate older than the limit goes out with the next packet that fits, and nothing stays held |
| `QmapRuns.RunKeeps` | data/modify_modem/driver/quectel_Gobinet/src/GobiUSBNet.c:633-796 | in every run each submitted frame is in exactly one sent buffer, held, or in hand, whole and in order; the count is the number of frames held and below its limit |
| `QmapRuns.TrafficConserved` | data/modify_modem/driver/quectel_Gobinet/src/GobiUSBNet.c:633-796 | for every run: sent, held and in-hand bytes are the submitted bytes; nothing is held exactly when the count is 0; held traffic has a timer or scheduled work once its call has ended |
| `QmapRuns.UrgentSendsAll` | data/modify_modem/driver/quectel_Gobinet/src/GobiUSBNet.c:708-717 | when an urgent packet's call ends, everything submitted so far has been sent |
| `QmapRuns.SectionSizeExact` | data/modify_modem/driver/quectel_Gobinet/src/GobiUSBNet.c:700-755 | one section keeps the held buffer within its allocation if and only if it is not the case that nothing is held, the bypass time has not passed, the packet may be held back, allocation succeeds and the frame is longer than the limit |
| `QmapRuns.AgeSinceLastSent` | data/modify_modem/driver/quectel_Gobinet/src/GobiUSBNet.c:633-768 | in every run the age a section measures is the time since the last section or flush that sent something |
| `QmapRuns.AlwaysFitsExactly` | data/modify_modem/driver/quectel_Gobinet/src/GobiUSBNet.c:633-796 | in a run the held buffer fits at every moment if and only if that case never arises |
| `QmapRuns.OverrunReached` | data/modify_modem/driver/quectel_Gobinet/src/GobiUSBNet.c:700-816 | it arises with the first frame after the limits are adopted, if the frame is longer |
| `QmapRuns.SizeKept` | data/modify_modem/driver/quectel_Gobinet/src/GobiUSBNet.c:700-755 | in runs whose frames fit, the held buffer never exceeds the limit |
| `QmapRuns.AggregatesBelowLimit` | data/modify_modem/driver/quectel_Gobinet/src/GobiUSBNet.c:633-796 | in every run any sent or held buffer is one submitted frame or shorter than the size limit |
| `QmapRuns.DeframeAggregate` | data/modify_modem/driver/quectel_Gobinet/src/GobiUSBNet.c:1642-1752 | an aggregate of framed packets is taken apart into exactly those packets |
| `QmapRuns.EndToEnd` | data/modify_modem/driver/quectel_Gobinet/src/GobiUSBNet.c:481-1752 | after any run the receive handler, given the sent buffers and then the remainder, delivers exactly the submitted packets with their mux ids, in order, unpadded, and never faults |
| `QList.QNode.constructor` | data/modify_modem/app/quectel_cm_5G/src/qlist.h:19-23 | an initialised node is an empty ring |
| `QList.AddTail` | data/modify_modem/app/quectel_cm_5G/src/qlist.h:25-31 | the ring of a sequence becomes the ring of the sequence with the item appended; only three nodes are written |
| `QList.Remove` | data/modify_modem/app/quectel_cm_5G/src/qlist.h:33-37 | the ring loses exactly the item; only its neighbours are written |
| `QList.RemoveFresh` | data/modify_modem/app/quectel_cm_5G/src/quectel-qrtr-proxy.c:322-341 | removing a freshly initialised node leaves every list as it was |
| `QList.ForEach` | data/modify_modem/app/quectel_cm_5G/src/qlist.h:12-13 | the walk visits the sequence, in order, once each |
| `QList.IsEmpty` | data/modify_modem/app/quectel_cm_5G/src/qlist.h:15 | empty exactly when there are no items |
| `QList.First` | data/modify_modem/app/quectel_cm_5G/src/qlist.h:16 | the first item, or the head of an empty list |
| `QList.DrainFromHead` | data/modify_modem/app/quectel_cm_5G/src/quectel-qmi-proxy.c:213-245 | taking the head until the list is empty removes every item in order |
| `QList.RingLinks` | data/modify_modem/app/quectel_cm_5G/src/qlist.h:12-37 | the links of a ring's nodes undo each other and stay in the ring |
| `QList.RingUnique` | data/modify_modem/app/quectel_cm_5G/src/qlist.h:12-37 | the links determine the sequence of items |
| `QmiProxy.QmiProxyLoop.AcceptConnection` | data/modify_modem/app/quectel_cm_5G/src/quectel-qmi-proxy.c:185-204 | a connection with no client ids is appended |
| `QmiProxy.QmiProxyLoop.CleanupConnection` | data/modify_modem/app/quectel_cm_5G/src/quectel-qmi-proxy.c:206-264 | a close removes one connection, releases its client ids behind the queue and takes its first request off; `CloseQueue` and `CloseKeepsInvExactly` say what that keeps |
| `QmiProxy.QmiProxyLoop.ReleaseAll` | data/modify_modem/app/quectel_cm_5G/src/quectel-qmi-proxy.c:213-245 | one release per client id is queued in order, and the first is sent if the queue was empty |
| `QmiProxy.QmiProxyLoop.DropQueued` | data/modify_modem/app/quectel_cm_5G/src/quectel-qmi-proxy.c:247-255 | the first queued request of the connection, and only that, is taken off |
| `QmiProxy.QmiProxyLoop.RecvFromDev` | data/modify_modem/app/quectel_cm_5G/src/quectel-qmi-proxy.c:347-419 | a response takes the head off the queue, goes to the requester if id and type agree, and sends the next request; an indication is looked for in the service type |
| `QmiProxy.QmiProxyLoop.TakeNotice` | data/modify_modem/app/quectel_cm_5G/src/quectel-qmi-proxy.c:399-403 | the revoke notice sets the reset flag if the field tested says indication |
| `QmiProxy.QmiProxyLoop.DeliverResponse` | data/modify_modem/app/quectel_cm_5G/src/quectel-qmi-proxy.c:368-383 | the response goes to the connections with the requester's descriptor and updates their records |
| `QmiProxy.QmiProxyLoop.DeliverService` | data/modify_modem/app/quectel_cm_5G/src/quectel-qmi-proxy.c:405-418 | a service message goes to every matching record of every connection |
| `QmiProxy.QmiProxyLoop.RecvFromClient` | data/modify_modem/app/quectel_cm_5G/src/quectel-qmi-proxy.c:421-447 | a control request is queued and sent at once only if nothing else was queued; a service message is written to the modem; SYNC is swallowed; `ServicesForwarded` and `SyncNeverSent` say what follows for runs |
| `QmiProxyRuns.StepKeeps` | data/modify_modem/app/quectel_cm_5G/src/quectel-qmi-proxy.c:206-447 | every event, refusals by the modem included, keeps the whole invariant: head outstanding, queue sound, ids accounted for |
| `QmiProxyRuns.AnswerConservesExactly` | data/modify_modem/app/quectel_cm_5G/src/quectel-qmi-proxy.c:266-295 | an answer keeps the accounts if and only if a grant names a free id and a release that is performed names an id of the requester's own, or nobody's |
| `QmiProxyRuns.ResponsesReachRequester` | data/modify_modem/app/quectel_cm_5G/src/quectel-qmi-proxy.c:347-398 | in every run exactly the head of a nonempty queue is at the modem, and the answer is written to the connection that asked and to no other |
| `QmiProxyRuns.IdsConserved` | data/modify_modem/app/quectel_cm_5G/src/quectel-qmi-proxy.c:206-295 | in every run a granted id is in exactly one connection's list, once, or named by exactly one queued release, or lost; when all is closed and drained exactly the lost ids are granted, and none is lost unless the modem refused a release of the proxy's own |
| `QmiProxyRuns.RefusalLosesExactly` | data/modify_modem/app/quectel_cm_5G/src/quectel-qmi-proxy.c:365-387 | an answer takes an id out of lists and queue while it stays granted if and only if it refuses one of the proxy's own releases |
| `QmiProxyRuns.RefusedReleaseLosesId` | data/modify_modem/app/quectel_cm_5G/src/quectel-qmi-proxy.c:206-387 | a run that ends with no connection and no request, and an id still granted |
| `QmiProxyRuns.UnicastReachesOwner` | data/modify_modem/app/quectel_cm_5G/src/quectel-qmi-proxy.c:405-418 | in every run a unicast service message is written once, to the owner of the id, and to nobody when there is none |
| `QmiProxyRuns.BroadcastReachesRecords` | data/modify_modem/app/quectel_cm_5G/src/quectel-qmi-proxy.c:405-418 | in every run a message for all clients of a service is written to each open connection once per record of that service, unchanged, and to nobody else |
| `QmiProxyRuns.ServicesForwarded` | data/modify_modem/app/quectel_cm_5G/src/quectel-qmi-proxy.c:421-447 | in every run the service messages written to the modem are exactly those the clients have sent, unchanged, in order, once each |
| `QmiProxyRuns.SyncNeverSent` | data/modify_modem/app/quectel_cm_5G/src/quectel-qmi-proxy.c:427-430 | in every run no SYNC request is queued or at the modem |
| `QmiProxyRuns.OnlyModemWrites` | data/modify_modem/app/quectel_cm_5G/src/quectel-qmi-proxy.c:206-447 | clients are written to only on an answer or a service message of the modem; a control notice changes nothing |
| `QmiProxyRuns.AnyResponse` | data/modify_modem/app/quectel_cm_5G/src/quectel-qmi-proxy.c:347-398 | any response whatever takes the head off the queue and sends the next; it is written to the requester alone if id and type agree, else to nobody, and only that requester's records change, on success; with an empty queue it does nothing |
| `QmiProxyRuns.NotServing` | data/modify_modem/app/quectel_cm_5G/src/quectel-qmi-proxy.c:347-425 | before the proxy serves, a message from the modem only ends the wait for SYNC, and a client's is refused |
| `QmiProxyRuns.OtherCloses` | data/modify_modem/app/quectel_cm_5G/src/quectel-qmi-proxy.c:206-264 | an unknown descriptor is closed without effect; a close without releases takes the connection and its first request, and writes nothing |
| `QmiProxyRuns.CloseQueue` | data/modify_modem/app/quectel_cm_5G/src/quectel-qmi-proxy.c:213-255 | a disconnect queues one release per owned id, behind what was queued, less the connection's first request |
| `QmiProxyRuns.ReleasesName` | data/modify_modem/app/quectel_cm_5G/src/quectel-qmi-proxy.c:219-239 | the queued releases name each owned id as often as the list does, each a release request with transaction id 255 |
| `QmiProxyRuns.CloseKeepsHeadExactly` | data/modify_modem/app/quectel_cm_5G/src/quectel-qmi-proxy.c:247-255 | closing keeps the head of the queue at the modem if and only if the head is not the closing connection's |
| `QmiProxyRuns.CloseKeepsInvExactly` | data/modify_modem/app/quectel_cm_5G/src/quectel-qmi-proxy.c:206-264 | closing keeps head, queue and accounts in order if and only if the connection has at most one queued request and that one is not at the modem |
| `QmiProxyRuns.CloseInFlightLosesRequest` | data/modify_modem/app/quectel_cm_5G/src/quectel-qmi-proxy.c:247-255 | a run in which a close with a request in flight makes the proxy drop another connection's request unsent |
| `QmiProxyRuns.ReleaseConservesExactly` | data/modify_modem/app/quectel_cm_5G/src/quectel-qmi-proxy.c:280-295 | a client's release keeps the accounts if and only if it is refused, or the id is not granted, in that client's list, or nobody's |
| `QmiProxyRuns.ResetNeverNoticed` | data/modify_modem/app/quectel_cm_5G/src/quectel-qmi-proxy.c:399-403 | with the field the code tests no message sets the reset flag; with the flags tested exactly the revoke notice would |
| `CtlQueue.Queue.Push` | data/modify_modem/app/quectel_cm_5G/src/quectel-qmi-proxy.c:239-241 | on the heap: a request in a new node at the end of the ring |
| `CtlQueue.Queue.PopHead` | data/modify_modem/app/quectel_cm_5G/src/quectel-qmi-proxy.c:389-390 | on the heap: the head is taken off the ring |
| `CtlQueue.Queue.Submit` | data/modify_modem/app/quectel_cm_5G/src/quectel-qmi-proxy.c:437-439 | on the heap: a client's request goes to the end, and to the modem at once if and only if the queue was empty |
| `CtlQueue.Queue.Answer` | data/modify_modem/app/quectel_cm_5G/src/quectel-qmi-proxy.c:355-396 | on the heap: a response takes the head off and the new head, if any, is written next |
| `CtlQueue.Queue.DropFirst` | data/modify_modem/app/quectel_cm_5G/src/quectel-qmi-proxy.c:247-255 | on the heap: the walk unlinks the first request of a connection and no other |
| `CtlQueue.Queue.Close` | data/modify_modem/app/quectel_cm_5G/src/quectel-qmi-proxy.c:213-255 | on the heap: what a close does to the queue is what `Cleanup` says of the sequence of requests |
| `IdTable.Alloc` | data/modify_modem/app/quectel_cm_5G/src/quectel-qrtr-proxy.c:129-163 | first fit: the first free id is returned and marked with its low byte, or 0 when there is none |
| `IdTable.Free` | data/modify_modem/app/quectel_cm_5G/src/quectel-qrtr-proxy.c:143-171 | an id is unmarked when its place holds it |
| `IdTable.AllocExact` | data/modify_modem/app/quectel_cm_5G/src/quectel-qrtr-proxy.c:129-163 | a new id was not in use, and the table stays exact if and only if the id is below 256 |
| `IdTable.FreeExact` | data/modify_modem/app/quectel_cm_5G/src/quectel-qrtr-proxy.c:143-171 | freeing an id in use keeps the table exact |
| `IdTable.FreeIdExists` | data/modify_modem/app/quectel_cm_5G/src/quectel-qrtr-proxy.c:129-163 | pigeonhole: with fewer ids in use than the table and a byte can tell apart, a usable one is found |
| `IdTable.FullExactly` | data/modify_modem/app/quectel_cm_5G/src/quectel-qrtr-proxy.c:151-163 | an id below 256 is found if and only if fewer than 255 are in use |
| `IdTable.IdBeyondByte` | data/modify_modem/app/quectel_cm_5G/src/quectel-qrtr-proxy.c:151-171 | id 256 is handed out again and again and cannot be freed |
| `QrtrProxy.QrtrProxyLoop.AllocClient` | data/modify_modem/app/quectel_cm_5G/src/quectel-qrtr-proxy.c:373-389 | a client id request for a known service appends a record with the first free client id, or 0, and the first free port; for an unknown one it changes nothing |
| `QrtrProxy.QrtrProxyLoop.ReleaseClient` | data/modify_modem/app/quectel_cm_5G/src/quectel-qrtr-proxy.c:391-416 | a release frees the record's id and port, announces the port's end and drops the record, or does nothing for an id not held |
| `QrtrProxy.QrtrProxyLoop.ReleaseEach` | data/modify_modem/app/quectel_cm_5G/src/quectel-qrtr-proxy.c:446-450 | the loop of a close releases the head record until none is left |
| `QrtrProxy.QrtrProxyLoop.CleanupConnection` | data/modify_modem/app/quectel_cm_5G/src/quectel-qrtr-proxy.c:439-465 | a close releases every record of the connection and removes it; the others stay |
| `QrtrProxy.QrtrProxyLoop.SendToModem` | data/modify_modem/app/quectel_cm_5G/src/quectel-qrtr-proxy.c:640-663 | a message under an id the sender holds leaves from that record's port for the service's address, any other goes nowhere, and an unknown connection is an error |
| `QrtrProxy.QrtrProxyLoop.RecvData` | data/modify_modem/app/quectel_cm_5G/src/quectel-qrtr-proxy.c:478-503 | data from the modem is written to the connections whose record has the destination port |
| `QrtrProxy.QrtrProxyLoop.DeliverTo` | data/modify_modem/app/quectel_cm_5G/src/quectel-qrtr-proxy.c:483-501 | the walk over one connection's records |
| `IdTable.NoneFreeExactly` | data/modify_modem/app/quectel_cm_5G/src/quectel-qrtr-proxy.c:129-141 | a table that a byte covers has no free id if and only if as many nonzero ids are in use as it has places for |
| `QrtrRuns.GetKeepsCids` | data/modify_modem/app/quectel_cm_5G/src/quectel-qrtr-proxy.c:373-389 | a granted client id is in nobody's list, and the table stays exact whether the grant fails or not |
| `QrtrRuns.GrantFailsExactly` | data/modify_modem/app/quectel_cm_5G/src/quectel-qrtr-proxy.c:373-389 | for a known service a grant fails if and only if all 239 nonzero ids are in use; a refusal leaves a record with id 0 and the next port, and takes no id |
| `QrtrRuns.GetKeepsPortsExactly` | data/modify_modem/app/quectel_cm_5G/src/quectel-qrtr-proxy.c:373-389 | a new record keeps the port table exact if and only if fewer than 255 records exist |
| `QrtrRuns.ReleaseKeeps` | data/modify_modem/app/quectel_cm_5G/src/quectel-qrtr-proxy.c:391-416 | a release keeps both tables exact |
| `QrtrRuns.ReleaseAllEffect` | data/modify_modem/app/quectel_cm_5G/src/quectel-qrtr-proxy.c:446-450 | emptying a connection releases each record once, in order, and changes no other connection |
| `QrtrRuns.CleanupNums` | data/modify_modem/app/quectel_cm_5G/src/quectel-qrtr-proxy.c:439-465 | a close leaves the other connections, less exactly the ids and ports held |
| `QrtrRuns.CleanupFreesAll` | data/modify_modem/app/quectel_cm_5G/src/quectel-qrtr-proxy.c:439-465 | a close announces the end of each port it held once, in list order, and keeps the tables exact |
| `QrtrRuns.IdsDistinct` | data/modify_modem/app/quectel_cm_5G/src/quectel-qrtr-proxy.c:127-171 | in every run nonzero client ids are distinct and exactly the marked ones, and in runs of at most 239 records all are nonzero; in runs of at most 255 records ports are nonzero, distinct and exactly the marked ones |
| `QrtrRuns.PortSharedAfter257` | data/modify_modem/app/quectel_cm_5G/src/quectel-qrtr-proxy.c:127-171 | a run of 257 client id requests in which two connections hold the same port and data for one is written to both |
| `QrtrRuns.TranslationRoundTrip` | data/modify_modem/app/quectel_cm_5G/src/quectel-qrtr-proxy.c:478-663 | whenever a message may be sent it leaves unchanged under the record's port for node and port of the first listed service with that number, and data sent back to that port reaches that connection alone with the same type, id and data |
| `QrtrProxy.FindService` | data/modify_modem/app/quectel_cm_5G/src/quectel-qrtr-proxy.c:112-124 | the service found is listed and has the number; none is found if and only if none is listed |
| `QrtrRuns.FindsFirst` | data/modify_modem/app/quectel_cm_5G/src/quectel-qrtr-proxy.c:112-124 | of several services with one number the first listed is found |
| `QrtrRuns.SendsExactly` | data/modify_modem/app/quectel_cm_5G/src/quectel-qrtr-proxy.c:640-657 | a message leaves if and only if its id is in the sender's list and a service with its number, not 0, is listed |
| `QrtrRuns.GrantRecords` | data/modify_modem/app/quectel_cm_5G/src/quectel-qrtr-proxy.c:373-577 | a request is answered with 0 if and only if the service is not listed or all 239 ids are in use; the asking connection alone gets a record of the answer, or nothing changes |
| `QrtrRuns.ReleaseEffect` | data/modify_modem/app/quectel_cm_5G/src/quectel-qrtr-proxy.c:391-416 | a release drops the first record with that type and id from the asking connection, and announces it; an id not held changes nothing |
| `QrtrRuns.NoticeNames` | data/modify_modem/app/quectel_cm_5G/src/quectel-qrtr-proxy.c:284-306 | a port's end is announced with the proxy's node and that port, to the node that announced the first service of the type, or to all nodes when there is none |
| `QrtrRuns.ServicesListed` | data/modify_modem/app/quectel_cm_5G/src/quectel-qrtr-proxy.c:310-341 | in every run the services listed are those of the modem that were announced, in order; none is ever removed |
| `QrtrRuns.CloseUnknown` | data/modify_modem/app/quectel_cm_5G/src/quectel-qrtr-proxy.c:439-465 | closing a descriptor nobody has changes nothing |
| `QrtrRuns.Isolation` | data/modify_modem/app/quectel_cm_5G/src/quectel-qrtr-proxy.c:640-657 | two connections never send from the same port; a connection sends only under ids in its own list; data for another node or an unused port reaches nobody |
| `QrtrRuns.LengthConsistent` | data/modify_modem/app/quectel_cm_5G/src/quectel-qrtr-proxy.c:487-494 | the length field agrees with the message exactly up to 65530 bytes of data |
| `MbimProxy.TagExact` | data/modify_modem/app/quectel_cm_5G/src/quectel-mbim-proxy.c:197-268 | a tag is never 0; slot and id can be read back if and only if the id is below 2^24 |
| `MbimProxy.TagInjective` | data/modify_modem/app/quectel_cm_5G/src/quectel-mbim-proxy.c:225 | different slots or ids give different tags |
| `MbimProxy.Proxy.HandleConnect` | data/modify_modem/app/quectel_cm_5G/src/quectel-mbim-proxy.c:156-182 | the first free slot is taken, with its own index, or the client is refused |
| `MbimProxy.Proxy.HandleDisconnect` | data/modify_modem/app/quectel_cm_5G/src/quectel-mbim-proxy.c:184-195 | the client's slot is freed |
| `MbimProxy.Proxy.HandleRequest` | data/modify_modem/app/quectel_cm_5G/src/quectel-mbim-proxy.c:197-238 | an unknown client is refused, open and close are answered by the proxy, everything else goes to the device tagged |
| `MbimProxy.Proxy.HandleResponse` | data/modify_modem/app/quectel_cm_5G/src/quectel-mbim-proxy.c:244-279 | id 0 goes to all open slots, any other to the tagged slot with the client's id restored |
| `MbimProxy.InvAlways` | data/modify_modem/app/quectel_cm_5G/src/quectel-mbim-proxy.c:156-195 | in every run open descriptors are distinct and slot i carries index i+1 |
| `MbimProxy.SlotKept` | data/modify_modem/app/quectel_cm_5G/src/quectel-mbim-proxy.c:156-195 | a client that does not leave keeps its slot |
| `MbimProxy.ReplyReachesSlot` | data/modify_modem/app/quectel_cm_5G/src/quectel-mbim-proxy.c:197-279 | in every run a reply reaches, with the original id, the present occupant of the requesting slot and nobody else: the same client if it has not left |
| `MbimProxy.BroadcastReaches` | data/modify_modem/app/quectel_cm_5G/src/quectel-mbim-proxy.c:251-256 | a broadcast goes to exactly the open descriptors |
| `MbimProxy.BroadcastInOrder` | data/modify_modem/app/quectel_cm_5G/src/quectel-mbim-proxy.c:251-256 | to each open slot exactly once, in slot order |
| `MbimProxy.OpenAnswered` | data/modify_modem/app/quectel_cm_5G/src/quectel-mbim-proxy.c:205-225 | in every run a request is refused if and only if its descriptor is in no slot, and answered by the proxy if and only if it opens or closes the device: to that client, with the answer's type, the client's id and status success |
| `MbimProxy.StrayReply` | data/modify_modem/app/quectel_cm_5G/src/quectel-mbim-proxy.c:258-276 | in every run a reply reaches nobody if and only if its tag names no slot or an empty one |
| `MbimProxy.JoinSeats` | data/modify_modem/app/quectel_cm_5G/src/quectel-mbim-proxy.c:171-181 | in every run a new client gets the first free slot, and is turned away only when all 32 are in use |
| `MbimProxy.LeaveFrees` | data/modify_modem/app/quectel_cm_5G/src/quectel-mbim-proxy.c:184-195 | a leaving client's slot is free afterwards and every other slot is as it was |
| `AtReader.Reader.FindNextEol` | data/modify_modem/app/quectel_cm_5G/src/atchannel.c:304-315 | the end of the next line in the buffered text, with the prompt's special case |
| `AtReader.Reader.StartLine` | data/modify_modem/app/quectel_cm_5G/src/atchannel.c:340-366 | a consumed buffer is reset, a complete line found where it stands, a partial line moved down; no text is lost |
| `AtReader.Reader.ReadSome` | data/modify_modem/app/quectel_cm_5G/src/atchannel.c:389-408 | one read of the size the channel offers, cut to the room, extends the text; terminators in front are skipped |
| `AtReader.Reader.TakeLine` | data/modify_modem/app/quectel_cm_5G/src/atchannel.c:420-429 | the line is terminated in place and the rest stays unread; after a prompt the cursor is behind the text, or out of a full buffer |
| `AtReader.Reader.Readline` | data/modify_modem/app/quectel_cm_5G/src/atchannel.c:328-430 | for every stream and every division into reads: the line, the prompt or the end, and what is left, including overflow |
| `AtReader.ReaderLoop` | data/modify_modem/app/quectel_cm_5G/src/atchannel.c:450-489 | for every stream and division: up to the first prompt the lines that call after call gives; the lines before the first one that does not fit are the stream's; if all fit, all are |
| `AtReader.SafeCalls` | data/modify_modem/app/quectel_cm_5G/src/atchannel.c:328-430 | calls return the lines that fit, and if all fit there is no prompt and no other line |
| `AtReader.LinesStep` | data/modify_modem/app/quectel_cm_5G/src/atchannel.c:347-367 | the reader's next line is the first of the stream's lines |
| `AtReader.LinesKeepText` | data/modify_modem/app/quectel_cm_5G/src/atchannel.c:304-430 | the lines and the unfinished end are the stream without its terminators: nothing is lost or doubled |
| `AtReader.PromptSplitsExactly` | data/modify_modem/app/quectel_cm_5G/src/atchannel.c:304-315 | the end found in the text so far is the stream's line end, or rightly none, unless the text is the bare SMS prompt and the line goes on behind it: if and only if |
| `AtReader.FittingAgrees` | data/modify_modem/app/quectel_cm_5G/src/atchannel.c:328-430 | a line that fits is the one returned, whatever is in the buffer and however the rest is read |
| `AtReader.ReadlineExact` | data/modify_modem/app/quectel_cm_5G/src/atchannel.c:328-430 | a call gives the next line for every buffer state and every division if and only if the line and the terminators before it are shorter than the buffer and it does not start like the prompt |
| `AtReader.OverflowDiscards` | data/modify_modem/app/quectel_cm_5G/src/atchannel.c:368-376 | of a line too long exactly what fills the buffer is given up, and the rest is read as if it were all |
| `AtReader.DivisionMatters` | data/modify_modem/app/quectel_cm_5G/src/atchannel.c:304-315 | one stream and two divisions that give different lines |
| `AtReader.PartialFits` | data/modify_modem/app/quectel_cm_5G/src/atchannel.c:368-376 | while a line fits, the overflow branch gives up no text |
| `AtResponse.Channel.StrStartsWith` | data/modify_modem/app/quectel_cm_5G/src/atchannel.c:99-108 | true exactly for a prefix |
| `AtResponse.Channel.StrStartsWithAny` | data/modify_modem/app/quectel_cm_5G/src/atchannel.c:132-176 | true exactly when one of the listed results is a prefix |
| `AtResponse.Response.AddIntermediate` | data/modify_modem/app/quectel_cm_5G/src/atchannel.c:111-124 | a new node at the head of the list |
| `AtResponse.Response.ReverseIntermediates` | data/modify_modem/app/quectel_cm_5G/src/atchannel.c:722-735 | the same nodes, linked in reverse, in place |
| `AtResponse.Channel.ProcessLine` | data/modify_modem/app/quectel_cm_5G/src/atchannel.c:229-295 | one line releases raw data or an SMS body, ends the command, is collected for it, or goes to the unsolicited handler; only a final line in proxy mode does two of these |
| `AtResponse.CueWritesOnce` | data/modify_modem/app/quectel_cm_5G/src/atchannel.c:236-254 | raw data is written on the first CONNECT, which is then no final result, an SMS body on the first prompt, each once |
| `AtResponse.CueLeavesRest` | data/modify_modem/app/quectel_cm_5G/src/atchannel.c:229-295 | with its cue a command is given the same lines and result as without it |
| `AtResponse.MatchesMeans` | data/modify_modem/app/quectel_cm_5G/src/atchannel.c:257-283 | the lines a command collects: by their first digit, by their prefix character by character, or none |
| `AtResponse.FinalsMean` | data/modify_modem/app/quectel_cm_5G/src/atchannel.c:132-176 | a line is a success by three beginnings, an error by seven, and never both |
| `AtResponse.MatchingSplits` | data/modify_modem/app/quectel_cm_5G/src/atchannel.c:277-283 | whether a line is collected depends on that line alone, and both kinds keep their order |
| `AtResponse.NoFinalExactly` | data/modify_modem/app/quectel_cm_5G/src/atchannel.c:240-249 | with no raw data waiting a command has its result if and only if a final line has come |
| `AtResponse.Channel.Await` | data/modify_modem/app/quectel_cm_5G/src/atchannel.c:770-777 | lines are processed until the first final result or until they stop, and as many more as arrive before the command's thread has woken up |
| `AtResponse.LateLineHarmlessExactly` | data/modify_modem/app/quectel_cm_5G/src/atchannel.c:229-295 | such a line leaves the response alone if and only if the command would not collect it and it is no final result, or the same one |
| `AtResponse.Channel.SendCommand` | data/modify_modem/app/quectel_cm_5G/src/atchannel.c:743-799 | each way a command ends: pending, not written, timed out, channel closed, done; a response handed out holds the final result, if any, and, in arrival order on the heap, the collected lines |
| `AtResponse.MultiLineTakes` | data/modify_modem/app/quectel_cm_5G/src/atchannel.c:277-283 | a MULTILINE command gets exactly the prefixed lines in arrival order; the others go to the handler once, in order |
| `AtResponse.SingleTakes` | data/modify_modem/app/quectel_cm_5G/src/atchannel.c:252-276 | SINGLELINE and NUMERIC keep only the first match; every other line goes to the handler, in order |
| `AtResponse.CommandResult` | data/modify_modem/app/quectel_cm_5G/src/atchannel.c:229-295 | a command's result, lines and handler's lines for each kind, final line included, with and without proxy mode |
| `AtChannel.NextItem` | data/modify_modem/app/quectel_cm_5G/src/atchannel.c:450-482 | one turn of the reader thread: a line, or an SMS notice with the line after it |
| `AtChannel.NoticeMeans` | data/modify_modem/app/quectel_cm_5G/src/atchannel.c:194-211 | an SMS notice is known by four beginnings |
| `AtChannel.UpToNotice` | data/modify_modem/app/quectel_cm_5G/src/atchannel.c:450-482 | lines up to the first notice are processed; it goes with the line after it, whatever that is, to the handler, and the rest is treated as if alone; a lone last notice goes nowhere |
| `AtChannel.Serve` | data/modify_modem/app/quectel_cm_5G/src/atchannel.c:450-489 | from the bytes: the pending command hears exactly the stream's lines without SMS notices, up to its final result, and the rest of the stream stays unread |
| `AtChannel.Ask` | data/modify_modem/app/quectel_cm_5G/src/atchannel.c:328-799 | for every stream of fitting lines and every division into reads: a command's response is what its kind asks for of those lines |
| `AtResponse.ReversedTwice` | data/modify_modem/app/quectel_cm_5G/src/atchannel.c:718-735 | reversal undoes itself, so the list built newest first comes out in arrival order |
| `AtTok.Cursor.HasMore` | data/modify_modem/app/quectel_cm_5G/src/at_tok.c:187-190 | true exactly while unread text is left |
| `AtTok.Cursor.SkipWhiteSpace` | data/modify_modem/app/quectel_cm_5G/src/at_tok.c:50-57 | leading blanks are skipped and nothing else |
| `AtTok.Cursor.SkipNextComma` | data/modify_modem/app/quectel_cm_5G/src/at_tok.c:59-70 | the cursor ends behind the next comma, or at the end |
| `AtTok.Cursor.Strsep` | data/modify_modem/app/quectel_cm_5G/src/at_tok.c:72-89 | the text up to the delimiter stands in the line, and nothing before the cursor is touched |
| `AtTok.Cursor.NextTok` | data/modify_modem/app/quectel_cm_5G/src/at_tok.c:72-89 | the next token stands in the line; earlier bytes are untouched |
| `AtTok.Tokenize` | data/modify_modem/app/quectel_cm_5G/src/at_tok.c:175-190 | all tokens are returned in order and, at the end, each still stands where it was returned |
| `AtTok.TokensOfJoin` | data/modify_modem/app/quectel_cm_5G/src/at_tok.c:50-89 | a line of fields, with blanks in front of them and text behind closing quotes, is taken apart into those fields, less one of no characters at its end |
| `AtTok.SkipsBlanks` | data/modify_modem/app/quectel_cm_5G/src/at_tok.c:50-57 | exactly the leading blanks are skipped |
| `AtTok.BlanksIgnored` | data/modify_modem/app/quectel_cm_5G/src/at_tok.c:72-89 | blanks in front of a token do not change it |
| `AtTok.UnclosedQuote` | data/modify_modem/app/quectel_cm_5G/src/at_tok.c:72-89 | without a closing quote the token goes to the end of the line, and none follows |
| `AtTok.RoundTripExact` | data/modify_modem/app/quectel_cm_5G/src/at_tok.c:50-190 | the round trip holds if and only if the line does not end in a bare empty field |
| `QmiRendezvous.Counter.Next` | data/modify_modem/app/quectel_cm_5G/src/QMIThread.c:96-101 | the n-th call returns 1 plus n modulo the span |
| `QmiRendezvous.TidRepeats` | data/modify_modem/app/quectel_cm_5G/src/QMIThread.c:96-101 | two requests share an id if and only if their distance is a multiple of the span |
| `QmiRendezvous.Rendezvous.SendBegin` | data/modify_modem/app/quectel_cm_5G/src/QMIThread.c:607-623 | the request is published and the response cleared |
| `QmiRendezvous.Rendezvous.SendEnd` | data/modify_modem/app/quectel_cm_5G/src/QMIThread.c:625-644 | what the call returns after a wake-up or a timeout |
| `QmiRendezvous.Rendezvous.RecvQmi` | data/modify_modem/app/quectel_cm_5G/src/QMIThread.c:646-667 | a matching response, or the shutdown null, takes the request and frees it once |
| `QmiRendezvous.Rendezvous.IsResponse` | data/modify_modem/app/quectel_cm_5G/src/QMIThread.c:589-603 | service type, client id and transaction id agree; `ResponsesMatch` and `CallReturnsFirstReply` state it field by field |
| `QmiRendezvous.StepKeeps` | data/modify_modem/app/quectel_cm_5G/src/QMIThread.c:607-667 | every step keeps the rendezvous invariant |
| `QmiRendezvous.ResponsesMatch` | data/modify_modem/app/quectel_cm_5G/src/QMIThread.c:607-667 | in every interleaving a returned response matches that call's request, and no request is freed twice |
| `QmiRendezvous.CallReturnsFirstReply` | data/modify_modem/app/quectel_cm_5G/src/QMIThread.c:607-667 | in every interleaving a call that is woken in time and wants the response returns the first reply to its own request received during its wait, and otherwise nothing |
| `QmiRendezvous.LateReplyNotReturned` | data/modify_modem/app/quectel_cm_5G/src/QMIThread.c:96-667 | a late reply is returned to a later call only a positive multiple of the span further on |
| `QmiRendezvous.LateReplyAfterSpan` | data/modify_modem/app/quectel_cm_5G/src/QMIThread.c:96-603 | and at 65535 requests further on it matches |
| `QmiRendezvous.LateReplyReturned` | data/modify_modem/app/quectel_cm_5G/src/QMIThread.c:96-667 | a run in which the reply to a timed-out request is returned to the call 65535 requests later |
| `QmiRendezvous.FreedExactly` | data/modify_modem/app/quectel_cm_5G/src/QMIThread.c:607-664 | a request is ever freed if and only if it is no longer in the slot when the next one is sent |
| `QmiRendezvous.AbandonedNeverFreed` | data/modify_modem/app/quectel_cm_5G/src/QMIThread.c:607-664 | a request unanswered when the next one is sent is never freed, whatever comes later |
| `QmiTlv.Qstrcpy` | data/modify_modem/app/quectel_cm_5G/src/QMIThread.c:55-59 | the string and its NUL are written, and nothing before them |
| `QmiTlv.PutTlv` | data/modify_modem/app/quectel_cm_5G/src/QMIThread.c:203-213 | a TLV's bytes at its place, nothing before them |
| `QmiTlv.Builder.Add` | data/modify_modem/app/quectel_cm_5G/src/QMIThread.c:203-262 | the TLV area encodes one TLV more |
| `QmiTlv.Builder.AddAccount` | data/modify_modem/app/quectel_cm_5G/src/QMIThread.c:215-247 | user name, password and authentication are added as the account asks |
| `QmiTlv.Builder.StartNwInterfaceReq` | data/modify_modem/app/quectel_cm_5G/src/QMIThread.c:181-271 | for every profile that fits, the area is tiled exactly by the profile's TLVs despite the trailing NULs |
| `QmiTlv.Compose` | data/modify_modem/app/quectel_cm_5G/src/QMIThread.c:103-133 | the message is its headers and TLVs, and both length fields are the byte counts |
| `QmiTlv.GetTlv` | data/modify_modem/app/quectel_cm_5G/src/QMIThread.c:75-94 | on a well-formed message: the place of the first TLV of the type, or of the n-th TLV, or nothing |
| `QmiTlv.DriverGetTlv` | data/modify_modem/driver/quectel_Gobinet/src/QMI.c:371-409 | on a well-formed message: the value of the first TLV of the type, or the error when it is absent, too long or empty at the very end |
| `QmiTlv.TlvBytes` | data/modify_modem/app/quectel_cm_5G/src/QMIThread.c:75-94 | the bytes at a TLV's place are its type, length and value, and the next TLV follows at once |
| `QmiTlv.LookupsAgreeExactly` | data/modify_modem/driver/quectel_Gobinet/src/QMI.c:386-409 | driver and manager agree, the driver refusing what its buffer cannot hold, if and only if the type's first TLV is not an empty one at the very end |
| `QmiTlv.StartTlvsFound` | data/modify_modem/app/quectel_cm_5G/src/QMIThread.c:75-94 | in the request's TLVs every one is the first of its type and the n-th by 0x1000 + n |
| `QmiTlv.StartCarriesProfile` | data/modify_modem/app/quectel_cm_5G/src/QMIThread.c:181-271 | the first TLV of each type carries the profile's setting, and absent settings have none |
| `QmiTlv.RequestAccount` | data/modify_modem/app/quectel_cm_5G/src/QMIThread.c:187-247 | the request carries the user's own account, or on a CDMA network without one the network's text with CHAP; authentication goes along only with both parts |
| `QmiTlv.MessageFields` | data/modify_modem/app/quectel_cm_5G/src/QMIThread.c:103-133 | from the composed bytes: both lengths count what follows them, and type, transaction id and service are read back |
| `QmiTlv.ComposeAndLookUp` | data/modify_modem/app/quectel_cm_5G/src/QMIThread.c:75-133 | on the bytes of the composed request the lookup by type stops at exactly the setting's bytes or finds none, and by 0x1000 + n enumerates the TLVs and then finds none |
| `ConnManager.Manager.UsbnetLinkChange` | data/modify_modem/app/quectel_cm_5G/src/main.c:37-54 | a DHCP call exactly when the mask changes |
| `ConnManager.Manager.SigStart` | data/modify_modem/app/quectel_cm_5G/src/main.c:426-489 | without network attachment nothing is dialled; a dial before its time is put off; a failed one raises the counter and sets the next time; a successful one resets it |
| `ConnManager.Manager.QueryStatus` | data/modify_modem/app/quectel_cm_5G/src/main.c:521-553 | an enabled family that was not disconnected takes the queried status (outside QMI the second takes the first's); any other is disconnected |
| `ConnManager.Manager.SigCheck` | data/modify_modem/app/quectel_cm_5G/src/main.c:491-574 | a check's effect on statuses and link, and whether it asks for a dial |
| `ConnManager.Manager.MainQuit` | data/modify_modem/app/quectel_cm_5G/src/main.c:668-669 | the exit takes the link down |
| `ConnManager.Manager.Handle` | data/modify_modem/app/quectel_cm_5G/src/main.c:422-649 | one turn of the loop changes the state by the function of state and event that the run theorems are about, and sends the starts and checks that `RetryDue` rests on |
| `ConnManager.DhcpFollowsLink` | data/modify_modem/app/quectel_cm_5G/src/main.c:37-669 | in every run DHCP calls happen only on mask changes, never twice the same, and every exit leaves the mask 0 |
| `ConnManager.CheckSetsLinkExactly` | data/modify_modem/app/quectel_cm_5G/src/main.c:556-568 | after a check the mask is the set of connected families if and only if one is connected, both are disconnected, or the mask was 0 already |
| `ConnManager.DialConnectsExactly` | data/modify_modem/app/quectel_cm_5G/src/main.c:434-466 | after a dial an enabled family that was down is connected if and only if its set-up was answered, and else keeps its status; with one shared set-up IPv6 follows IPv4 |
| `ConnManager.CheckConnectsExactly` | data/modify_modem/app/quectel_cm_5G/src/main.c:491-553 | after a check IPv4 is connected if and only if it is enabled, was not disconnected, the modem says so and the address stands up; every other status by its own query |
| `ConnManager.MaskBits` | data/modify_modem/app/quectel_cm_5G/src/main.c:562-567 | bits 4 and 6 of the mask, and no others, are the connected families |
| `ConnManager.NoDialWaits` | data/modify_modem/app/quectel_cm_5G/src/main.c:426-433 | a start that may not dial only sets the timer: off without a network, else to the first whole second at which it may |
| `ConnManager.ExitsExactly` | data/modify_modem/app/quectel_cm_5G/src/main.c:576-669 | exactly the stop, the unplugging, the modem's reset and a poll error end the loop, with the link down |
| `ConnManager.NoticesReschedule` | data/modify_modem/app/quectel_cm_5G/src/main.c:601-649 | what network, call list and loopback notices change, and that they touch neither statuses nor link nor failures |
| `ConnManager.Manager.constructor` | data/modify_modem/app/quectel_cm_5G/src/main.c:264-379 | the state the loop starts from: both statuses unknown, except IPv4 after the query of an AT-command start |
| `ConnManager.FamiliesAgreeExactly` | data/modify_modem/app/quectel_cm_5G/src/main.c:374-553 | outside QMI, with both families enabled, their statuses agree at a moment if and only if a check or dial came before or AT commands are not used; the link is never up for one alone |
| `ConnManager.FailsCounted` | data/modify_modem/app/quectel_cm_5G/src/main.c:474-487 | the counter is the number of failed dials since the last successful one |
| `ConnManager.GoodDialResets` | data/modify_modem/app/quectel_cm_5G/src/main.c:484-489 | a dial that leaves a family up and none down resets the count and allows the next dial at once; one that does neither changes neither |
| `ConnManager.BackoffDoubles` | data/modify_modem/app/quectel_cm_5G/src/main.c:470-483 | the wait doubles from 5 seconds and stops at 60 |
| `ConnManager.BackoffSchedule` | data/modify_modem/app/quectel_cm_5G/src/main.c:474-483 | failures in a row, told by what the modem answered, wait 5, 10, 20, 40, 60, 60, ... seconds, counted from the clock after the dial |
| `ConnManager.NoEarlyDial` | data/modify_modem/app/quectel_cm_5G/src/main.c:430-433 | no dial before that time, unless the network was lost or the call list changed |
| `ConnManager.RetryDue` | data/modify_modem/app/quectel_cm_5G/src/main.c:382-649 | the manager never gives up: in every run, while an enabled family is down and there is a network, the timer is set or a start or a check is on its way |

## Left out

- Sockets, poll, ioctl, netlink, sysfs and device detection: reads and writes are inputs of the
  handlers and logs of what they wrote; writes are taken to succeed, and `accept` to return a new
  descriptor.
- Memory allocation failure, except in the aggregator, where the code has a branch for it.
- The packet inspection that decides whether a packet is urgent (GobiUSBNet.c:593-631): its outcome is an
  input of the aggregator, and the theorems hold for every outcome.
- Clocks are inputs; nothing depends on real time passing. Thread scheduling is any interleaving the
  locks allow; that a wait ends at all is not claimed.
- The order in which buffers claimed by different threads reach the USB queue after the lock is released:
  conservation is in the order of the claims.
- `skb_put` beyond the allocation stops the kernel; `AlwaysFitsExactly` says when the aggregator would do it.
- QmiProxy and QrtrProxy hold their lists as sequences; that the intrusive list implements such sequences is
  proved in QList, and for the QMI proxy's control queue in CtlQueue. Use of freed nodes and of one node in
  two lists is not modelled.
- AT reader: NUL bytes in the stream and read errors.
- AtReader.ReaderLoop: does not say which lines come after a prompt, when the reader is behind the text,
  at whatever the buffer held before.
- `at_tok_scanf` and number parsing: only the token layer below them is modelled.
- QMI messages other than the start-network request, `ParseQMUX`, `FillQMUX` and `ValidQMIMessage`: fixed
  layouts without a law of their own.
- QmiTlv.GetTlv: on ill-formed messages only that the walk stops or is recognised as leaving the message.
- QRTR hello, resume and the four-byte alignment of packets; MBIM message contents beyond type and id.
- The connection manager's SIM, signal and cell queries, the retry with the other authentication scheme, and
  the address comparison in detail: their results are inputs of the dial and check events.
- The AutoPM thread for kernels before 2.6.29, and the QMI fragment merge, which is compiled out.
