# Quectel connection manager model

A model of four parts of the Quectel connection manager, with proofs of what they promise.

* **QMI proxy.** Many local clients share one modem control channel. Control requests pass through one queue with one
  request outstanding; the service and client id pairs that the modem grants are recorded per connection and given back
  when a client hangs up. `QmiProxyModel` says what each step does, `QmiProxy` is the proxy with its objects updated in
  place, `QmiProxyOrder`, `QmiProxySystem` and `QmiProxyClientIds` prove what holds over whole runs, alone and together
  with a modem; `QmiProxyTraffic` is about what it passes on, byte by byte, and `QmiProxyHangUp` about clients that leave with a request queued. `QmiReassembly` is
  the optional reassembly of fragmented messages.
* **QRTR proxy.** It hands out client ids and ports from two tables and translates between QMI and QRTR addresses:
  `QrtrTables`, `QrtrModel`, `QrtrProxy`, and over runs `QrtrIds`, `QrtrRuns`, `QrtrPorts`,
  `QrtrServices`, `QrtrReplies`, `QrtrTranslation`.
* **AT channel.** `AtLines` and `AtReader` are the line reader and its buffer, `AtModel` and `AtChannel` the
  classification of lines, the pending command and the two threads, `AtClasses` the classes, `AtRules` and `AtEffects` what
  callers may rely on, `AtSync` whose
  answer they get. The result codes are those of annex B of 3GPP TS 27.007, the framing that of section 5.7 of ITU-T V.250.
* **QMI messages.** `QmiTlv` is the TLV scanner, `QmiBuild` and `QmiCompose` the builders and the transaction ids,
  `QmiProfileList` and `QmiProfileReach` the profile list, `QmiRendezvous` the exchange between the sending and the receiving thread.

`Wire` holds bytes and header fields, `Memory` the copying of memory, `QList` the circular lists beneath both proxies.

Each stateful part comes twice: as a function on values, and as a class or method with loops whose `ensures` ties its new
state to that function. Theorems about runs are stated on the functions. Where two threads meet, a call takes an
arbitrary schedule: what happens during each wait, and whether the wait ends by time. The schedule's end counts as a
time-out.

Check with `dafny verify dfyconfig.toml`.

## What the code does where one might expect otherwise

* First in, first out holds in a run of the QMI proxy exactly when no client hangs up with a control request queued
  (`QmiProxyHangUp.LawExactlyWhenPolite`). After a hang-up with the request in flight, the next request is dropped
  unwritten if there is one (`DropsExactly`), or else the next to be queued may be handed the vanished client's answer
  (`VanishedAnswerTaken`).
* The port table has 4080 cells of eight bits, so port 256 is never recorded. Ports are distinct over a run exactly when
  there are never more than 256 live clients (`QrtrPorts.PortsDistinctExactly`). Client ids run out before, at 239, but a
  client without an id is still put on the list and takes a port.
* A withdrawn QRTR service stays listed (`QList.RemoveUnlinked`).
* A command that succeeds gets its own final result exactly when the answers still owed to earlier commands, which
  timed out, come during it as well (`AtSync.OwnAnswerExactly`).
* An 8-bit cursor walks the profile list; it recovers the indices exactly when the last one lies at offset 255 or before
  (`QmiProfileReach.RecoveredExactly`).
* The start request never carries the 3GPP2 profile index: its branch lies inside the branch for the other case
  (`QMIThread.c:258-266`).

## Model

| member | source | states |
|---|---|---|
| QList.QNode.constructor | feeds/lorawan-gateway/quectel-cm/src/qlist.h:30-34 | an initialised node is the empty ring |
| QList.AddTail | feeds/lorawan-gateway/quectel-cm/src/qlist.h:36-42 | appends the item to the sequence the ring stands for, touching only head, old tail and item |
| QList.Remove | feeds/lorawan-gateway/quectel-cm/src/qlist.h:44-48 | unlinking the k-th element gives the sequence without it; the element keeps its own links, so a loop standing on it can still be left |
| QList.RemoveUnlinked | feeds/lorawan-gateway/quectel-cm/src/quectel-qrtr-proxy.c:330-349 | removing a node that was only just initialised changes that node alone: a withdrawn service stays on its list |
| QList.IsEmpty | feeds/lorawan-gateway/quectel-cm/src/qlist.h:26 | empty exactly when the sequence is |
| QList.Head | feeds/lorawan-gateway/quectel-cm/src/qlist.h:27 | the first element of the sequence |
| QList.ForEach | feeds/lorawan-gateway/quectel-cm/src/qlist.h:23-24 | visits exactly the elements, in order, and ends |
| QList.Drain | feeds/lorawan-gateway/quectel-cm/src/quectel-qmi-proxy.c:209-241 | the loop that takes heads off until the list is empty ends, having removed exactly the elements in order |
| QmiProxy.Proxy.AcceptConnection | feeds/lorawan-gateway/quectel-cm/src/quectel-qmi-proxy.c:181-200 | a connection without pairs is added at the end |
| QmiProxy.Proxy.RecvFromClient | feeds/lorawan-gateway/quectel-cm/src/quectel-qmi-proxy.c:417-443 | refines the client step: SYNC dropped, control requests queued and written only if nothing waits before them, all else forwarded; the return code |
| QmiProxy.Proxy.RecvFromDevice | feeds/lorawan-gateway/quectel-cm/src/quectel-qmi-proxy.c:343-415 | refines the device step: the head of the queue meets a control response, is dropped matching or not, and the next head is written; service messages fan out |
| QmiProxy.Proxy.DeliverResponse | feeds/lorawan-gateway/quectel-cm/src/quectel-qmi-proxy.c:367-382 | the delivery loop: one copy to each connection with the issuer's descriptor, and its pairs updated; nobody else's pairs change |
| QmiProxy.Proxy.GetClientId | feeds/lorawan-gateway/quectel-cm/src/quectel-qmi-proxy.c:262-274 | a successful grant adds its pair at the end |
| QmiProxy.Proxy.ReleaseClientId | feeds/lorawan-gateway/quectel-cm/src/quectel-qmi-proxy.c:276-291 | a successful release removes the first equal pair, if any |
| QmiProxy.Proxy.ForwardService | feeds/lorawan-gateway/quectel-cm/src/quectel-qmi-proxy.c:402-413 | a service message goes out once for every matching pair, in list order |
| QmiProxy.Proxy.CleanupConnection | feeds/lorawan-gateway/quectel-cm/src/quectel-qmi-proxy.c:202-260 | refines the clean-up step: one RELEASE request queued per pair on a hang-up, the first queued request of the client dropped, the connection unlinked |
| QmiProxyModel.ReleaseMsgFields | feeds/lorawan-gateway/quectel-cm/src/quectel-qmi-proxy.c:213-232 | the proxy's own 17-byte request byte by byte: a RELEASE with transaction id 255 whose one TLV is the pair |
| QmiProxyTraffic.ClientsAreServed | feeds/lorawan-gateway/quectel-cm/src/quectel-qmi-proxy.c:417-443 | over every run: each service message of a client is forwarded once, in order and unchanged, and the requests accepted from clients are exactly their control messages but SYNC, in order |
| QmiProxyTraffic.NothingBeforeItIsUp | feeds/lorawan-gateway/quectel-cm/src/quectel-qmi-proxy.c:346-348 | before the proxy has its server socket nothing is accepted, written or noted |
| QmiProxyTraffic.ControlMessageExactly | feeds/lorawan-gateway/quectel-cm/src/quectel-qmi-proxy.c:349-400 | on bytes: a control message counts only as a response with a request queued; the head goes and the next is written; copies and notes exactly when bytes 7 to 9 fit and the head is a client's |
| QmiProxyTraffic.NotedExactly | feeds/lorawan-gateway/quectel-cm/src/quectel-qmi-proxy.c:262-291 | on bytes: which pair is added or taken off, exactly when both result fields are 0 |
| QmiProxyTraffic.BroadcastExactly | feeds/lorawan-gateway/quectel-cm/src/quectel-qmi-proxy.c:402-413 | a service message without client id goes out once for every pair of its service, connection by connection |
| QmiProxyTraffic.QuietClose | feeds/lorawan-gateway/quectel-cm/src/quectel-qmi-proxy.c:209-241 | a clean-up without hang-up gives nothing back and writes nothing |
| QmiProxyOrder.AtMostOnce | feeds/lorawan-gateway/quectel-cm/src/quectel-qmi-proxy.c:202-260 | over every run, hang-ups and mismatched responses included: the control writes are accepted requests, in order of acceptance, none twice |
| QmiProxyOrder.StepOrdered | feeds/lorawan-gateway/quectel-cm/src/quectel-qmi-proxy.c:343-443 | the invariant behind it is kept by every step: whatever waits behind the head is younger than all that was written |
| QmiProxySystem.OneInFlightFirstInFirstOut | feeds/lorawan-gateway/quectel-cm/src/quectel-qmi-proxy.c:343-443 | in every run without a hang-up with a request queued, with a modem that answers once and fittingly: the queue is non-empty exactly when one request is outstanding, that is the head, requests are written once in order of acceptance, the i-th answer answers the i-th request, and each client request's answer goes once to its issuer |
| QmiProxySystem.NextFifo | feeds/lorawan-gateway/quectel-cm/src/quectel-qmi-proxy.c:343-443 | every action keeps that invariant |
| QmiProxyHangUp.LawExactlyWhenPolite | feeds/lorawan-gateway/quectel-cm/src/quectel-qmi-proxy.c:202-443 | over every run: one outstanding at a time, order of acceptance and delivery to the issuer hold in every state exactly when no client hangs up with a control request queued |
| QmiProxyHangUp.LeaveKeepsFifoExactly | feeds/lorawan-gateway/quectel-cm/src/quectel-qmi-proxy.c:243-251 | one hang-up keeps that law exactly when the leaver has no control request queued |
| QmiProxyHangUp.LeaveKeepsInFlight | feeds/lorawan-gateway/quectel-cm/src/quectel-qmi-proxy.c:243-251 | it keeps one request in flight exactly when the queue is empty or its head is another client's |
| QmiProxyHangUp.DropsExactly | feeds/lorawan-gateway/quectel-cm/src/quectel-qmi-proxy.c:243-251 | when the answer outstanding at the hang-up is read, on its way already or not, a queued request is dropped unwritten exactly when the head was the leaver's and the hang-up left something queued |
| QmiProxyHangUp.OneRequestLost | feeds/lorawan-gateway/quectel-cm/src/quectel-qmi-proxy.c:351-392 | it is one request, the new head, and after it one request is in flight again |
| QmiProxyHangUp.LossIsReached | feeds/lorawan-gateway/quectel-cm/src/quectel-qmi-proxy.c:202-443 | a run from the start that loses a request: two clients join and ask, the first hangs up |
| QmiProxyHangUp.VanishedAnswerTaken | feeds/lorawan-gateway/quectel-cm/src/quectel-qmi-proxy.c:351-392 | with nothing left queued, the next request of the same transaction id and type is handed the vanished client's answer, and the id granted in it |
| QmiProxyHangUp.LeaverStillQueued | feeds/lorawan-gateway/quectel-cm/src/quectel-qmi-proxy.c:243-251 | a request of the leaver stays queued exactly when it had two or more |
| QmiProxyHangUp.AnswerGoesToDescriptor | feeds/lorawan-gateway/quectel-cm/src/quectel-qmi-proxy.c:366-382 | a fitting answer is written to whichever connection has the issuer's descriptor by then, or to nobody |
| QmiProxyClientIds.ClientIdsConserved | feeds/lorawan-gateway/quectel-cm/src/quectel-qmi-proxy.c:202-291 | over every careful run: pairs out at the modem = pairs held + pairs in queued RELEASE requests of the proxy + a pair in transit to a client, and no pair is held twice |
| QmiProxyClientIds.NextConserved | feeds/lorawan-gateway/quectel-cm/src/quectel-qmi-proxy.c:202-291 | every action keeps that balance |
| QmiProxyClientIds.OwnReleaseBalancedExactly | feeds/lorawan-gateway/quectel-cm/src/quectel-qmi-proxy.c:360-365 | a release the proxy asked for keeps the balance exactly when the modem does not refuse it |
| QmiProxyClientIds.ServiceWritesCount | feeds/lorawan-gateway/quectel-cm/src/quectel-qmi-proxy.c:402-413 | a message with a client id goes out exactly as often as its pair is held, and only to holders |
| QmiProxyClientIds.ServiceMessageReachesItsOwner | feeds/lorawan-gateway/quectel-cm/src/quectel-qmi-proxy.c:401-414 | in those runs it reaches exactly the connection holding its pair, once, or nobody if none holds it |
| QmiProxyClientIds.ReleaseReqsGiveBack | feeds/lorawan-gateway/quectel-cm/src/quectel-qmi-proxy.c:209-241 | the requests queued on a hang-up give back exactly the connection's pairs |
| QmiReassembly.Reassembler.MergePacket | feeds/lorawan-gateway/quectel-cm/src/quectel-qmi-proxy.c:119-149 | in place, for every packet: the collected bytes and the completed message, or -1, are those of the reference merge |
| QmiReassembly.ReassemblyRoundTrip | feeds/lorawan-gateway/quectel-cm/src/quectel-qmi-proxy.c:119-149 | messages of at most 4096 bytes cut into 56-byte fragments come out exactly and in order; the accumulator never passes 4096 and ends empty |
| QmiReassembly.FeedCut | feeds/lorawan-gateway/quectel-cm/src/quectel-qmi-proxy.c:131-146 | feeding what is left of one message completes that message and nothing else, whatever follows |
| QmiReassembly.MergeExactly | feeds/lorawan-gateway/quectel-cm/src/quectel-qmi-proxy.c:124-148 | the merge on bytes, refusals and all |
| QmiReassembly.ResumesBehindAnEnd | feeds/lorawan-gateway/quectel-cm/src/quectel-qmi-proxy.c:131-146 | whatever was lost before, behind a short or whole fragment all messages come out again |
| QmiReassembly.ReadAll | feeds/lorawan-gateway/quectel-cm/src/quectel-qmi-proxy.c:119-149 | the in-place loop over all fragments returns the messages |
| QrtrTables.AllocFrom | feeds/lorawan-gateway/quectel-cm/src/quectel-qrtr-proxy.c:137-149 | the lowest free cell is taken, its id stored in eight bits; 0 when there is none |
| QrtrTables.FreeIn | feeds/lorawan-gateway/quectel-cm/src/quectel-qrtr-proxy.c:151-157 | a cell that holds its own index is cleared, any other request changes nothing |
| QrtrTables.LowestFreeBound | feeds/lorawan-gateway/quectel-cm/src/quectel-qrtr-proxy.c:159-171 | pigeonhole: the lowest free id is at most one more than the ids in use |
| QrtrTables.AllocExact | feeds/lorawan-gateway/quectel-cm/src/quectel-qrtr-proxy.c:137-179 | handing out an id keeps the table exactly the ids in use if and only if the id is below 256; an id in use is never handed out |
| QrtrTables.AllocClientExact | feeds/lorawan-gateway/quectel-cm/src/quectel-qrtr-proxy.c:135-149 | for the client table it always does; id 0 comes out exactly when 239 ids are in use |
| QrtrTables.AllocPortExact | feeds/lorawan-gateway/quectel-cm/src/quectel-qrtr-proxy.c:136-171 | for the port table it does exactly while fewer than 255 ports are in use; then port 256 is handed out and not recorded |
| QrtrTables.FreeExact | feeds/lorawan-gateway/quectel-cm/src/quectel-qrtr-proxy.c:151-179 | giving back an id in use removes exactly that id |
| QrtrRuns.AllocationConserved | feeds/lorawan-gateway/quectel-cm/src/quectel-qrtr-proxy.c:381-473 | in every run with at most 239 live clients: the non-zero cells of both tables are exactly the ids on the client lists, each once, none 0 |
| QrtrRuns.RunConsistent | feeds/lorawan-gateway/quectel-cm/src/quectel-qrtr-proxy.c:381-473 | in every run, however many clients: both tables agree with the lists, but for client id 0 and port 256 |
| QrtrRuns.PortsByPigeonhole | feeds/lorawan-gateway/quectel-cm/src/quectel-qrtr-proxy.c:135-179 | in every run the next port is at most live clients plus one; below 256 it is unused, stored whole, and freeing it restores the table; it is 256, unrecorded, only when 1 to 255 are taken |
| QrtrPorts.PortsDistinctExactly | feeds/lorawan-gateway/quectel-cm/src/quectel-qrtr-proxy.c:135-179 | over every run: no two live clients ever share a port exactly when there are never more than 256 of them |
| QrtrPorts.DistinctButTop | feeds/lorawan-gateway/quectel-cm/src/quectel-qrtr-proxy.c:159-179 | in any reached state ports are distinct exactly when at most one client has port 256 |
| QrtrPorts.RunWithClients | feeds/lorawan-gateway/quectel-cm/src/quectel-qrtr-proxy.c:381-397 | for every number there is a run that ends with so many live clients and never has more |
| QrtrPorts.SharedPortIsReached | feeds/lorawan-gateway/quectel-cm/src/quectel-qrtr-proxy.c:159-171 | runs that meet the bound with 256 distinct ports and that pass it with 257 clients and a shared one |
| QrtrRuns.CleanupIsolated | feeds/lorawan-gateway/quectel-cm/src/quectel-qrtr-proxy.c:447-473 | closing a connection says one DEL_CLIENT per client in list order, frees exactly its ids, and leaves other connections, ids and services alone |
| QrtrRuns.DrainEffects | feeds/lorawan-gateway/quectel-cm/src/quectel-qrtr-proxy.c:455-459 | the drain loop's outputs, one farewell per client in order |
| QrtrRuns.ReleaseNeedsOwner | feeds/lorawan-gateway/quectel-cm/src/quectel-qrtr-proxy.c:399-424 | a release request changes anything exactly when its connection owns the pair |
| QrtrRuns.StepServed | feeds/lorawan-gateway/quectel-cm/src/quectel-qrtr-proxy.c:316-350 | services are never withdrawn, so every live client's service stays known |
| QrtrServices.ServicesAreAnnounced | feeds/lorawan-gateway/quectel-cm/src/quectel-qrtr-proxy.c:316-350 | over every run: the services listed are those the modem announced, one for each NEW_SERVER packet about node 3, in order, with the service, version, instance, node and port of its payload and its sender |
| QrtrServices.KnownAsFirstAnnounced | feeds/lorawan-gateway/quectel-cm/src/quectel-qrtr-proxy.c:122-133 | a service is known exactly when it was announced, and taken to be where it was first announced |
| QrtrTranslation.AddressRoundTrip | feeds/lorawan-gateway/quectel-cm/src/quectel-qrtr-proxy.c:475-673 | in every run with at most 256 live clients: an owner's message leaves from its own port to the node and port first announced for its service, without the 6-byte header, and the payload echoed to that port is delivered once, byte for byte the original, to that connection |
| QrtrTranslation.NotOwnedNotSent | feeds/lorawan-gateway/quectel-cm/src/quectel-qrtr-proxy.c:649-666 | a service message for a pair its connection does not own changes nothing and goes nowhere |
| QrtrReplies.GetAnswered | feeds/lorawan-gateway/quectel-cm/src/quectel-qrtr-proxy.c:556-590 | a GET is answered to its sender with the id of the client put on its list, or with failure for an unknown service |
| QrtrReplies.ReleaseAnswered | feeds/lorawan-gateway/quectel-cm/src/quectel-qrtr-proxy.c:591-619 | a RELEASE is answered with success and its pair |
| QrtrReplies.ReleaseExactly | feeds/lorawan-gateway/quectel-cm/src/quectel-qrtr-proxy.c:399-424 | the first client with the pair goes, with one farewell; without one nothing happens |
| QrtrReplies.OtherControl | feeds/lorawan-gateway/quectel-cm/src/quectel-qrtr-proxy.c:547-555 | VERSION is answered, every other control message ignored, as is any of a connection that is not there |
| QrtrReplies.ResponseBytes | feeds/lorawan-gateway/quectel-cm/src/quectel-qrtr-proxy.c:567-642 | the three responses byte by byte |
| QrtrReplies.FarewellExactly | feeds/lorawan-gateway/quectel-cm/src/quectel-qrtr-proxy.c:292-314 | a farewell's addresses, command and operands |
| QrtrReplies.PacketAnsweredExactly | feeds/lorawan-gateway/quectel-cm/src/quectel-qrtr-proxy.c:475-533 | HELLO answered, data confirmed when asked, from where it went to where it came from, and nothing else said |
| QrtrTranslation.DeliveredOnce | feeds/lorawan-gateway/quectel-cm/src/quectel-qrtr-proxy.c:487-512 | while no port is shared, a packet to a live client's port reaches that client and nobody else |
| QrtrTranslation.DeliveriesCount | feeds/lorawan-gateway/quectel-cm/src/quectel-qrtr-proxy.c:487-512 | a packet is delivered once per client with its destination address, and only to those |
| QrtrTranslation.RebuiltIsOriginal | feeds/lorawan-gateway/quectel-cm/src/quectel-qrtr-proxy.c:497-506 | stripping the header and building it again gives the message back |
| QrtrModel.GetRspFields | feeds/lorawan-gateway/quectel-cm/src/quectel-qrtr-proxy.c:556-590 | the response to a GET carries transaction id, type and pair, and says success exactly when an id was found |
| QrtrProxy.Proxy.AllocClient | feeds/lorawan-gateway/quectel-cm/src/quectel-qrtr-proxy.c:381-397 | refines the allocation step on both tables and the client list |
| QrtrProxy.Proxy.ReleaseClient | feeds/lorawan-gateway/quectel-cm/src/quectel-qrtr-proxy.c:399-424 | refines the release step |
| QrtrProxy.Proxy.DrainClients | feeds/lorawan-gateway/quectel-cm/src/quectel-qrtr-proxy.c:455-459 | the drain loop ends and refines the reference drain |
| QrtrProxy.Proxy.CleanupConnection | feeds/lorawan-gateway/quectel-cm/src/quectel-qrtr-proxy.c:447-473 | refines the clean-up step |
| QrtrProxy.Proxy.RecvFromDevice | feeds/lorawan-gateway/quectel-cm/src/quectel-qrtr-proxy.c:475-533 | refines the modem step: HELLO answered, services recorded, data delivered and confirmed |
| QrtrProxy.Proxy.RecvFromClient | feeds/lorawan-gateway/quectel-cm/src/quectel-qrtr-proxy.c:535-673 | refines the client step: GET, RELEASE and VERSION answered, SYNC dropped, service messages sent on; the return code |
| AtLines.ChunkIndependence | feeds/lorawan-gateway/quectel-cm/src/atchannel.c:328-429 | the lines returned over all calls are the non-empty pieces between CR and LF of the concatenated input, whatever the reads |
| AtLines.LinesExactly | feeds/lorawan-gateway/quectel-cm/src/atchannel.c:304-315 | what the lines of a stream are: a text up to CR or LF unless it is empty, then the lines of the rest |
| AtLines.NextLineIsFirst | feeds/lorawan-gateway/quectel-cm/src/atchannel.c:328-429 | one call returns the first of the lines still to come and keeps the rest; none exactly at the end |
| AtLines.ShortStreamFits | feeds/lorawan-gateway/quectel-cm/src/atchannel.c:368-405 | any cutting of fewer than 4096 prompt-free characters meets the reader's precondition |
| AtLines.DenseStreamFits | feeds/lorawan-gateway/quectel-cm/src/atchannel.c:368-405 | for a stream of any length: if any m characters in a row finish a line and reads bring at most 4096 - m, every read fits |
| AtReader.Reader.ReadLine | feeds/lorawan-gateway/quectel-cm/src/atchannel.c:328-429 | in place over the shared buffer: the line, the text left and the reads left are those of the reference |
| AtReader.Reader.FindNextEol | feeds/lorawan-gateway/quectel-cm/src/atchannel.c:304-315 | the next CR or LF, none if there is none; a pending text that is just the prompt ends at its end |
| AtReader.Reader.MoveUp | feeds/lorawan-gateway/quectel-cm/src/atchannel.c:354-363 | the unfinished line moves to the front with its terminator, unchanged |
| AtReader.Reader.ReadMore | feeds/lorawan-gateway/quectel-cm/src/atchannel.c:393-408 | one read lands behind the pending text; leading newlines of the whole are skipped |
| AtReader.Reader.SkipNewlines | feeds/lorawan-gateway/quectel-cm/src/atchannel.c:348-350 | exactly the leading CR and LF are skipped |
| AtReader.Reader.NextOf | feeds/lorawan-gateway/quectel-cm/src/atchannel.c:328-429 | the same as the first line of all text still to be returned |
| AtChannel.ReaderLoop | feeds/lorawan-gateway/quectel-cm/src/atchannel.c:450-489 | the events made of a whole input, two-line short messages paired, are those of the pieces of the concatenated input, then one end of input |
| AtRules.DispatchKeepsLines | feeds/lorawan-gateway/quectel-cm/src/atchannel.c:463-483 | every line is passed on once, in order, except a short message's first line that the input's end cuts off |
| AtClasses.DispatchExactly | feeds/lorawan-gateway/quectel-cm/src/atchannel.c:463-483 | a line is passed on by itself exactly when it is neither the first nor the second of a short message |
| AtClasses.ClassesExactly | feeds/lorawan-gateway/quectel-cm/src/atchannel.c:132-199 | which lines are final of success, final of error, and first of a short message |
| AtClasses.ClassesAreDisjoint | feeds/lorawan-gateway/quectel-cm/src/atchannel.c:132-211 | no line is of two of these classes |
| AtClasses.BeginningsExactly | feeds/lorawan-gateway/quectel-cm/src/atchannel.c:98-108 | what it is to start with a prefix or a digit |
| AtChannel.StrStartsWith | feeds/lorawan-gateway/quectel-cm/src/atchannel.c:98-108 | true exactly for a prefix |
| AtChannel.StartsWithOneOf | feeds/lorawan-gateway/quectel-cm/src/atchannel.c:141-211 | true exactly when the line starts with one of the prefixes |
| AtChannel.AtResponse.AddIntermediate | feeds/lorawan-gateway/quectel-cm/src/atchannel.c:111-124 | the new line becomes the head of the list |
| AtChannel.AtResponse.ReverseIntermediates | feeds/lorawan-gateway/quectel-cm/src/atchannel.c:722-735 | in place: the same nodes in the opposite order |
| AtChannel.AtChannel.ProcessLine | feeds/lorawan-gateway/quectel-cm/src/atchannel.c:229-295 | refines the line step in every branch: unsolicited, raw data, success, error, prompt, and the four command types |
| AtChannel.AtChannel.Happen | feeds/lorawan-gateway/quectel-cm/src/atchannel.c:432-447 | refines any event of the other thread, end of input and closing included |
| AtChannel.AtChannel.ResponseFree | feeds/lorawan-gateway/quectel-cm/src/atchannel.c:696-716 | frees a response and each of its lines, none of which was freed before |
| AtChannel.AtChannel.ClearPendingCommand | feeds/lorawan-gateway/quectel-cm/src/atchannel.c:627-636 | no command is pending; its response, if any, is freed |
| AtChannel.AtChannel.WaitForFinal | feeds/lorawan-gateway/quectel-cm/src/atchannel.c:770-777 | the wait loop refines the reference for every schedule of events, wakes and time-outs |
| AtChannel.AtChannel.HandOut | feeds/lorawan-gateway/quectel-cm/src/atchannel.c:779-787 | the response leaves freed, or with its lines in order of arrival |
| AtChannel.AtChannel.SendCommandFullNolock | feeds/lorawan-gateway/quectel-cm/src/atchannel.c:743-799 | refines the whole command; nothing is left pending; with Valid, every response ever made is either freed or handed out, never both, and no line of one handed out is freed |
| AtChannel.AtChannel.SendCommandOneLine | feeds/lorawan-gateway/quectel-cm/src/atchannel.c:853-895 | refines the single-line and numeric commands, freeing a successful response without a line |
| AtChannel.AtChannel.SendCommandRaw | feeds/lorawan-gateway/quectel-cm/src/atchannel.c:933-946 | the same with raw data set |
| AtRules.Answered | feeds/lorawan-gateway/quectel-cm/src/atchannel.c:229-295 | over any events, prompts for raw data and short messages included: the lines kept are those that type and prefix dictate, the last final line is the result |
| AtRules.Divided | feeds/lorawan-gateway/quectel-cm/src/atchannel.c:229-295 | each line and short message but the prompts answered goes to the command or to the handler, to one of them, and both keep the order of arrival |
| AtRules.Completion | feeds/lorawan-gateway/quectel-cm/src/atchannel.c:743-799 | for every schedule: nothing stays pending; result 0 means a final response with success set exactly for the success class; exactly when a response is handed out; time-out exactly when the wait condition is met at no wake before it |
| AtRules.ResultExactly | feeds/lorawan-gateway/quectel-cm/src/atchannel.c:743-799 | which result each command gets, an already pending one included |
| AtEffects.HeardExactly | feeds/lorawan-gateway/quectel-cm/src/atchannel.c:770-777 | which waits are heard: up to the first that runs out of time or meets the condition |
| AtEffects.CommandLeaves | feeds/lorawan-gateway/quectel-cm/src/atchannel.c:743-799 | the channel after a command is what the events heard leave, with nothing pending |
| AtEffects.BegunExactly | feeds/lorawan-gateway/quectel-cm/src/atchannel.c:757-768 | the text written with its carriage return, and an empty response pending |
| AtEffects.WireExactly | feeds/lorawan-gateway/quectel-cm/src/atchannel.c:498-590 | over every run of commands the wire carries exactly the texts written and the data that answered prompts, in order |
| AtEffects.ClosedExactly | feeds/lorawan-gateway/quectel-cm/src/atchannel.c:432-447 | closed exactly once closed or, if that is reported, at the input's end |
| AtEffects.IdleTellsAll | feeds/lorawan-gateway/quectel-cm/src/atchannel.c:233-235 | without a command every line and short message goes to the handler, in order |
| AtRules.WokenExactly | feeds/lorawan-gateway/quectel-cm/src/atchannel.c:770-777 | the wait loop ends by its condition exactly when that is met at some wake before the first time-out |
| AtRules.ResponseIsWhatArrived | feeds/lorawan-gateway/quectel-cm/src/atchannel.c:779-784 | the response handed out is made of what arrived before the wake, in that order |
| AtRules.RefusedExactly | feeds/lorawan-gateway/quectel-cm/src/atchannel.c:853-895 | a single-line or numeric command is refused exactly when it would succeed with a response wanted and no line heard is one for it; in any other case channel, result and response are the plain command's |
| AtRules.SingleAnswer | feeds/lorawan-gateway/quectel-cm/src/atchannel.c:853-895 | a successful single-line or numeric command has exactly one line, with the prefix asked for or a leading digit |
| AtRules.AnswerOverAnyCut | feeds/lorawan-gateway/quectel-cm/src/atchannel.c:328-489 | the same characters cut into reads differently, heard as far as the same event with different wakes, give the same response |
| AtRules.NeverTwoPending | feeds/lorawan-gateway/quectel-cm/src/atchannel.c:752-755 | with one command thread the error for a pending command never occurs |
| AtSync.OwnAnswerExactly | feeds/lorawan-gateway/quectel-cm/src/atchannel.c:743-799 | with a modem that answers each written command once and in order, a command that succeeds gets its own final line exactly when the final lines heard during it are all those owed before and its own; always when none was owed |
| AtSync.EveryCommandExactly | feeds/lorawan-gateway/quectel-cm/src/atchannel.c:743-799 | the same for every command of every run |
| AtSync.OwnUntilTimeOut | feeds/lorawan-gateway/quectel-cm/src/atchannel.c:773-776 | in every run each command that succeeds before one has timed out gets its own |
| AtSync.LateAnswerIsTakenForTheNext | feeds/lorawan-gateway/quectel-cm/src/atchannel.c:773-776 | a command times out, its answer comes during the next: that one succeeds with the first one's answer |
| QmiTlv.GetTlv | feeds/lorawan-gateway/quectel-cm/src/QMIThread.c:73-92 | for every message: the loop with its 16-bit remaining length returns what the reference walk returns, and ends |
| QmiTlv.FindRefinesLookup | feeds/lorawan-gateway/quectel-cm/src/QMIThread.c:73-92 | on a list that fills the stated length: the value of the first TLV of a type, of the n-th for 0x1000+n, or none |
| QmiTlv.LookupIs | feeds/lorawan-gateway/quectel-cm/src/QMIThread.c:79-89 | what the list search means: first of that type, n-th by number, none past the end |
| QmiTlv.NeverWrapsExactly | feeds/lorawan-gateway/quectel-cm/src/QMIThread.c:79-89 | the remaining length never wraps exactly when a TLV list fills the stated length up to two bytes |
| QmiTlv.OverlongRunsOn | feeds/lorawan-gateway/quectel-cm/src/QMIThread.c:87-88 | a TLV that states more than is left is stepped over and the remaining length wraps |
| QmiProfileList.DecodeIndices | feeds/lorawan-gateway/quectel-cm/src/QMIThread.c:2152-2168 | the loop with 8-bit counters fills the array as the reference cursor walk says |
| QmiProfileReach.RecoveredExactly | feeds/lorawan-gateway/quectel-cm/src/QMIThread.c:2152-2168 | for given technologies and names, exactly the indices come out in order, whichever they are, if and only if the last one lies at offset 255 or before |
| QmiProfileList.ProfilesRecovered | feeds/lorawan-gateway/quectel-cm/src/QMIThread.c:2156-2168 | for any list whose last index the cursor reaches |
| QmiProfileReach.BeyondReach | feeds/lorawan-gateway/quectel-cm/src/QMIThread.c:2156-2168 | for any other the loop fails on it or on the list with another last index |
| QmiProfileList.ShortListRecovered | feeds/lorawan-gateway/quectel-cm/src/QMIThread.c:2156-2168 | the indices come out of every list of at most 255 bytes |
| QmiProfileList.CursorWraps | feeds/lorawan-gateway/quectel-cm/src/QMIThread.c:2161-2167 | an instance out of reach: behind a first name of 253 bytes the first index comes out again |
| QmiCompose.IdsRepeat | feeds/lorawan-gateway/quectel-cm/src/QMIThread.c:94-99 | ids stay in 1..65535 and are equal exactly when a multiple of 65535 calls apart |
| QmiCompose.Composer.GetQmuxTransactionId | feeds/lorawan-gateway/quectel-cm/src/QMIThread.c:94-99 | the n-th call returns the n-th id |
| QmiCompose.Composer.ComposeQmuxMsg | feeds/lorawan-gateway/quectel-cm/src/QMIThread.c:101-131 | the request built in the buffer, headers, both lengths and TLVs; an id is spent even without memory |
| QmiBuild.WdsModifyProfileSettingsReq | feeds/lorawan-gateway/quectel-cm/src/QMIThread.c:539-596 | written into the buffer in place: exactly the encoded TLV list, and its size |
| QmiBuild.WdsStartNwInterfaceReq | feeds/lorawan-gateway/quectel-cm/src/QMIThread.c:179-300 | the same for the start request |
| QmiBuild.PutTlv | feeds/lorawan-gateway/quectel-cm/src/QMIThread.c:560-566 | one TLV behind those written so far; the stores past its end stay in the buffer |
| QmiBuild.FitsExactly | feeds/lorawan-gateway/quectel-cm/src/QMIThread.c:101-106 | when a list of TLVs fits: every store, terminators and the rest of a BOOL included, stays in the 256 bytes |
| QmiCompose.RequestCarries | feeds/lorawan-gateway/quectel-cm/src/QMIThread.c:101-131 | every header byte: flags, service, id, message type and both lengths; a lookup gives the first TLV written of its type |
| QmiCompose.ModifyReadsBack | feeds/lorawan-gateway/quectel-cm/src/QMIThread.c:539-596 | for every profile that fits and every type: a lookup returns exactly the APN, user, password, authentication or other bytes given, and none for each omitted |
| QmiCompose.ModifyOnceEach | feeds/lorawan-gateway/quectel-cm/src/QMIThread.c:539-596 | one TLV of each type it should carry, and no other |
| QmiCompose.StartReadsBack | feeds/lorawan-gateway/quectel-cm/src/QMIThread.c:179-300 | the same for the start request, with the operator's account and CHAP when a 3GPP2 profile has neither user nor password |
| QmiCompose.StartOnceEach | feeds/lorawan-gateway/quectel-cm/src/QMIThread.c:179-300 | one TLV of each type, and no other |
| QmiRendezvous.Rendezvous.QmiThreadRecvQmi | feeds/lorawan-gateway/quectel-cm/src/QMIThread.c:677-735 | refines the receiving step: an awaited answer is kept, anything else reported by its type |
| QmiRendezvous.Rendezvous.QmiThreadSendQmiTimeout | feeds/lorawan-gateway/quectel-cm/src/QMIThread.c:636-675 | refines a whole call for any messages, wake and send result |
| QmiRendezvous.ResponseIsOwn | feeds/lorawan-gateway/quectel-cm/src/QMIThread.c:636-697 | the result of a call; a response is handed out exactly when the first message equal to the request in bytes 4 and 5 and in transaction id comes before the device goes, and it is a copy of that message's bytes |
| QmiRendezvous.EveryResponseIsOwn | feeds/lorawan-gateway/quectel-cm/src/QMIThread.c:636-697 | the same for every response of every run |
| QmiRendezvous.GoneForgets | feeds/lorawan-gateway/quectel-cm/src/QMIThread.c:677-688 | a device that goes away frees the pending request and leaves no response with the exchange |
| QmiRendezvous.ReportedInOrder | feeds/lorawan-gateway/quectel-cm/src/QMIThread.c:698-714 | every message is taken as the answer or reported by service and message type, in order |
| QmiRendezvous.NoLateReply | feeds/lorawan-gateway/quectel-cm/src/QMIThread.c:618-697 | a reply to any of the 65534 requests composed before is never handed out |
| QmiRendezvous.LateReplyTakenExactly | feeds/lorawan-gateway/quectel-cm/src/QMIThread.c:618-697 | for the same service and client a reply to an earlier request is taken exactly when the two are a multiple of 65535 calls apart; otherwise the call goes as if it had not come |
| QmiRendezvous.RequestsAccounted | feeds/lorawan-gateway/quectel-cm/src/QMIThread.c:636-697 | over every run each request is freed once, lost or still pending |
| QmiRendezvous.ExchangeOwnsRequests | feeds/lorawan-gateway/quectel-cm/src/QMIThread.c:649-697 | a call's request stays pending exactly when it was not sent or nothing decided it, and is lost when another call begins then |
| QmiRendezvous.ComposedIsNumbered | feeds/lorawan-gateway/quectel-cm/src/QMIThread.c:101-131 | the i-th request composed carries the i-th id, also after the device filled in bytes 4 and 5, service and client |

## Left out

- Sockets, poll, device files and their errors: each read, write, wait and allocation is a parameter or a step; a write is recorded as attempted, whole.
- Threads: the two threads of the AT channel and of the QMI exchange meet only where the source holds its mutex, so their interleavings are schedules; unlocked reads of the descriptor are not modelled.
- Logging, name tables, device discovery, `quectel-mbim-proxy.c`, `quectel-atc-proxy.c`, CDMA digit conversion: no state worth proving, or the same idea in an easier form.
- The modem reset flag of the QMI proxy: the branch that sets it compares the service type with a control flag value inside the branch for service type 0 (`quectel-qmi-proxy.c:395-399`), so it never does.
- The proxies' lists of connections, clients and messages are fields of type `seq` in `QmiProxy` and `QrtrProxy`; that the intrusive lists behave as such sequences is proved in `QList`, and nodes inside larger structures are not modelled.
- Use counters, access times and the return values of the proxies' write functions: nobody reads them.
- Big-endian hosts: some fields are compared without byte-order conversion, so little-endian is fixed.
- `QMI_PROXY_MSG` identities are the `id` fields of requests, the histories of writes and answers are recorded by the model; the source keeps neither.
- Short messages: a header field past the end of a message reads as zero; the source reads what lies behind it in its buffer. The QRTR proxy's own messages are at least a header long.
- QmiProxySystem.OneInFlightFirstInFirstOut: assumes a modem that answers each request once and in order, and no client leaving with a request queued; that the law is false whenever one does is `QmiProxyHangUp.LawExactlyWhenPolite`.
- QmiProxyClientIds.ClientIdsConserved: also assumes one control request a client at a time, releases of pairs the client holds, grants of free pairs, and a modem that does not refuse the proxy's own requests; a refused one is forgotten (`OwnReleaseBalancedExactly`).
- QmiReassembly.Reassembler.MergePacket: the fragment must lie in the read buffer and fit the collected bytes, which the source does not check.
- QmiProxy.Proxy.CleanupConnection: the call that the proxy's main loop makes at its end, for connections and then itself, is one more call without hang-up.
- AtReader.Reader.ReadLine: excludes reads that fill the buffer to its last byte, over-long lines, NUL characters, and a read that ends just behind a prompt, where the source puts its cursor past the terminator (`atchannel.c:306-308` and `424`).
- AtReader.Reader.ReadMore: excludes the same reads, as do `AtReader.Reader.NextOf` and `AtChannel.ReaderLoop`.
- AtChannel.AtChannel.SendCommandFullNolock: a failing write leaves no trace on the wire, and a schedule is finite, so a reader that wakes the command thread for ever without an answer is not modelled.
- AtChannel.AtChannel.HandleUnsolicited: records the handler's calls; without a handler the source drops them.
- Strings that the reader duplicates: a second final line replaces the first, whose copy is lost in the source.
- AtSync.OwnAnswerExactly: assumes that final lines are only ever answers; some modems send NO CARRIER unasked.
- QmiBuild.WdsStartNwInterfaceReq: requires every store to stay in the 256-byte buffer, which the source does not check.
- QmiBuild.WdsModifyProfileSettingsReq: the same, as do `QmiBuild.PutTlv` and `QmiCompose.Composer.ComposeQmuxMsg`.
- QmiProfileList.DecodeIndices: requires a count of at most 42, the room there is; the source writes past it.
- QmiTlv.GetTlv: bytes past the end of the message read as zero.
- QmiRendezvous.Rendezvous.QmiThreadSendQmiTimeout: values stand for heap copies, and the responses' own memory is not accounted for; QoS indications, compiled out, are not reported.
- Other request builders, response parsers and request sequences of `QMIThread.c`: single TLVs or straight-line code.
