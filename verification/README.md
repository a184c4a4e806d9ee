# Verified models of the Forlinx T527 command demos

Six pieces of the repository carry protocols or algorithms. Each is modelled here in Dafny and its
properties are proved for all inputs, runs or interleavings.

* **The QMI proxy** (`qlist`, `connections`, `proxy`, `proxy_spec`, `proxy_runs`, `proxy_fifo`,
  `proxy_registry`, `proxy_delivery`, `proxy_exit`) shares one modem control channel between local clients.
  The handlers are methods on circular doubly linked lists with explicit memory: every list stays well
  formed, no two share a node, nothing is freed while a list reaches it. Each handler is proved to perform one step of a state machine over values, and the
  theorems about whole runs (first in, first out; which registrations exist; what the modem and each
  client get; the drain at exit) are about that machine.
* **The QMI message layer** (`tlv`, `profile`, `profile_elements`, `slot`, `slot_calls`,
  `registration`): builders that write elements into a fixed buffer, the walks that read them, the slot a
  sender and the reader thread share, and the fold that computes the registration state.
* **Face-detection post-processing** (`face`, `face_proposals`, `face_decode`, `face_sort`,
  `face_nms`, `face_detect`): decoding, the in-place quicksort, greedy suppression and their composition.
* **Pixel kernels** (`raster`, `yuyv`, `yuyv_crop`, `crop_exact`, `rotate`) and the **RTSP gate**
  (`rtsp`).
* **The MBIM connect command** (`mbim`).
* **Dialling and timing** (`dial`, `dial_runs`, `dial_link`, `dial_client`, `dial_signals`,
  `dialer`, `timed_wait`): the loop with its queue of signals and its alarm, and the sliced wait.

The environment (the modem's answers, the clock, samples of a connection, what a network computes) is a
parameter or an event; what the program writes is a log. A part that changes its variables in place is a
class or a method over an array whose contract gives the new state as a function of the old, and the
properties are proved of that function.

Some natural claims about this code are false. They appear as exact conditions, most with a run that
shows the failure: the proxy is first in, first out only while no client hangs up with a request queued
and the modem sends nothing but responses (`FifoExactly`, `MisroutedRun`, `RewrittenRun`), a hang-up
forgets at most one request (`HangupForgetsRequests`, `TwoQueuedRun`), grants and releases balance only
in order (`ReplayConserves`, `ReleaseFirstRun`), a descriptor of 256 or more is never closed
(`ClosedExactly`), a late answer can be taken for another after a whole counter period
(`LateAnswerIff`, `LateAnswerHappens`), a request composed while the slot still holds blocks loses them
(`Account`), the eHRPD flag can depend on the order of the elements (`PersonalityOrder`), a crop of two rows or more is right only at the capture size (`CropExactly`), an
unknown status is not backed off (`UnsuccessfulRound`, `UnknownStatusDoesNotWait`), the alarm of a failed
round can come before the call is allowed (`AlarmRun`) and its retry be forgotten until poll times out
(`RetryingRun`, `RetryForgotten`), a modem reset can have the address client started twice or never
stopped (`LinkRun`, `LinkExit` and their two runs), and a very long wait overflows its counter
(`CountsExactly`, `LongWaitWraps`).

To check everything: `dafny verify dfyconfig.toml` with Dafny 4.11.

## Model

| member | source | states |
|---|---|---|
| QList.QNode.constructor | forlinx_cmd_demo_527/quectelCM/quectel-qmi-proxy.c:484-488 | a new node is a ring of its own |
| QList.List.constructor | forlinx_cmd_demo_527/quectelCM/quectel-qmi-proxy.c:484-488 | an initialised head is the empty sequence |
| QList.List.AddTail | forlinx_cmd_demo_527/quectelCM/quectel-qmi-proxy.c:490-496 | relinking appends: the ring stays well formed and its items are the old ones and the new one last |
| QList.List.Remove | forlinx_cmd_demo_527/quectelCM/quectel-qmi-proxy.c:498-502 | relinking deletes at the node's position, whichever node it is, and leaves the removed node out of the ring |
| Connections.Connection.constructor | forlinx_cmd_demo_527/quectelCM/quectel-qmi-proxy.c:650-656 | the descriptor is stored in eight bits, the client list starts empty |
| Connections.Registry.Free | forlinx_cmd_demo_527/quectelCM/quectel-qmi-proxy.c:671-676 | memory is given back once, and only when no list reaches it |
| Connections.Registry.Accept | forlinx_cmd_demo_527/quectelCM/quectel-qmi-proxy.c:642-661 | one connection without clients is appended; all lists stay well formed and share no node |
| Connections.Registry.GetClientId | forlinx_cmd_demo_527/quectelCM/quectel-qmi-proxy.c:698-710 | a successful response registers its (type, id) at the end of that connection's list, an unsuccessful one nothing |
| Connections.Registry.ReleaseClientId | forlinx_cmd_demo_527/quectelCM/quectel-qmi-proxy.c:712-727 | a successful response drops the first registration of its (type, id), if there is one |
| Connections.Registry.DropClient | forlinx_cmd_demo_527/quectelCM/quectel-qmi-proxy.c:721-722 | the client is unlinked and its node freed; no other list changes |
| Connections.Registry.ReleaseAll | forlinx_cmd_demo_527/quectelCM/quectel-qmi-proxy.c:670-677 | all clients of a connection are freed, head first |
| Connections.Registry.RemoveConnection | forlinx_cmd_demo_527/quectelCM/quectel-qmi-proxy.c:691-692 | the connection, its node and its client list are unlinked and freed; the others keep their place |
| Proxy.Proxy.Accept | forlinx_cmd_demo_527/quectelCM/quectel-qmi-proxy.c:642-661 | performs the specified accept step on the linked lists |
| Proxy.Proxy.DropFirstRequest | forlinx_cmd_demo_527/quectelCM/quectel-qmi-proxy.c:679-687 | only the first queued request of the descriptor is taken off the queue |
| Proxy.Proxy.CleanupConnection | forlinx_cmd_demo_527/quectelCM/quectel-qmi-proxy.c:663-696 | performs the specified cleanup: clients freed, one request dropped, descriptor closed, connection unlinked; nothing for an unknown descriptor |
| Proxy.Proxy.Respond | forlinx_cmd_demo_527/quectelCM/quectel-qmi-proxy.c:803-829 | a response goes to the sender of the head request, its client ids are learned, and the head is freed; nothing when no request waits |
| Proxy.Proxy.Kick | forlinx_cmd_demo_527/quectelCM/quectel-qmi-proxy.c:831-841 | after any control message the head of the queue is written to the modem if its sender is connected |
| Proxy.Proxy.Route | forlinx_cmd_demo_527/quectelCM/quectel-qmi-proxy.c:843-856 | a service message is written once per matching client, in list order, and changes no list |
| Proxy.Proxy.RecvQmi | forlinx_cmd_demo_527/quectelCM/quectel-qmi-proxy.c:779-857 | performs the specified step for a frame from the modem |
| Proxy.Proxy.SendQmi | forlinx_cmd_demo_527/quectelCM/quectel-qmi-proxy.c:859-880 | a control request is written at once only if the queue is empty, and queued; a service message is written to the modem at once |
| Proxy.Proxy.Exit | forlinx_cmd_demo_527/quectelCM/quectel-qmi-proxy.c:1308-1313 | the drain performs the specified one and terminates |
| Proxy.Proxy.Serve | forlinx_cmd_demo_527/quectelCM/quectel-qmi-proxy.c:1234-1313 | the thread's lists hold exactly the state of the run of events it served, drained at the end; it stops early only after a revocation that reached a client; all that was written to the modem and to the clients is what the events call for, the clients' service messages among it in order and once each; the descriptors closed are those accepted in the eight bits kept of them, and the accepted ones themselves if and only if all of them lie in 0..255 |
| ProxySpec.ForwardFromAll | forlinx_cmd_demo_527/quectelCM/quectel-qmi-proxy.c:807-824 | forwarding connection by connection amounts to updating every connection on that descriptor |
| ProxyFifo.FifoStep | forlinx_cmd_demo_527/quectelCM/quectel-qmi-proxy.c:802-880 | with fresh descriptors and connected senders, one event keeps the queue, the writes to the modem and the pairing of answers with requests in order if and only if it is neither a hang-up with a request queued nor a control message other than a response while requests wait |
| ProxyFifo.FifoRun | forlinx_cmd_demo_527/quectelCM/quectel-qmi-proxy.c:802-880 | over every such run with r answers out of n requests: the queue is the arrivals from r on, the modem got the first min(r + 1, n) once each in order, and the k-th answer went to the sender of the k-th request |
| ProxyFifo.FifoExactly | forlinx_cmd_demo_527/quectelCM/quectel-qmi-proxy.c:802-880 | with fresh descriptors and connected senders, a run is first in, first out after each of its beginnings if and only if no event is such a hang-up or control message |
| ProxyFifo.HangupForgetsRequests | forlinx_cmd_demo_527/quectelCM/quectel-qmi-proxy.c:679-687 | a hang-up leaves no request of its sender queued if and only if at most one was |
| ProxyFifo.LateAnswerIsMisrouted | forlinx_cmd_demo_527/quectelCM/quectel-qmi-proxy.c:679-687 | when the sender of the request in flight hangs up, only the requests before the next have been written, the answer is delivered to the next sender, and the next request leaves the queue unwritten |
| ProxyFifo.MisroutedRun | forlinx_cmd_demo_527/quectelCM/quectel-qmi-proxy.c:679-687 | a run from the start in which that happens |
| ProxyFifo.TwoQueuedRun | forlinx_cmd_demo_527/quectelCM/quectel-qmi-proxy.c:679-687 | a run in which a hang-up leaves a request of its sender queued |
| ProxyFifo.RewrittenRun | forlinx_cmd_demo_527/quectelCM/quectel-qmi-proxy.c:831-841 | a run in which a request is written twice |
| ProxyRegistry.ReleaseFirstRun | forlinx_cmd_demo_527/quectelCM/quectel-qmi-proxy.c:712-727 | a run with one grant and one release that leaves a registration |
| ProxyFifo.StepNonResponse | forlinx_cmd_demo_527/quectelCM/quectel-qmi-proxy.c:831-841 | a control message that is no response keeps the proxy in step exactly when the queue is empty: otherwise the head is written again |
| ProxyRegistry.RegistryRun | forlinx_cmd_demo_527/quectelCM/quectel-qmi-proxy.c:698-727 | over every run, even with shared descriptors, each connection's client list is what the responses forwarded to it since it was accepted replay to |
| ProxyRegistry.ReplayConserves | forlinx_cmd_demo_527/quectelCM/quectel-qmi-proxy.c:698-727 | the registrations of a (type, id) are never fewer than its grants minus its releases, and equal to them if and only if no release comes before its grant |
| ProxyRegistry.UniqueStep | forlinx_cmd_demo_527/quectelCM/quectel-qmi-proxy.c:642-727 | an event keeps every (type, id) registered at most once if and only if it is not a grant that registers one twice: one already registered, or one heard by two connections on the same eight-bit descriptor |
| ProxyRegistry.UniqueRun | forlinx_cmd_demo_527/quectelCM/quectel-qmi-proxy.c:642-727 | hence every (type, id) is registered at most once after a run and after each of its beginnings if and only if no event is such a grant |
| ProxyRegistry.RouteCount | forlinx_cmd_demo_527/quectelCM/quectel-qmi-proxy.c:843-856 | a message with a client id is written exactly as often as its (type, id) is registered |
| ProxyRegistry.RouteToHolders | forlinx_cmd_demo_527/quectelCM/quectel-qmi-proxy.c:843-856 | and only to connections that hold the registration |
| ProxyRegistry.UnicastRun | forlinx_cmd_demo_527/quectelCM/quectel-qmi-proxy.c:843-856 | in such runs it reaches the one holder once, and nobody if there is none |
| ProxyDelivery.ServicePasses | forlinx_cmd_demo_527/quectelCM/quectel-qmi-proxy.c:875-877 | in every run the service messages written to the modem are exactly those the clients sent, in order, each once |
| ProxyDelivery.RouteIs | forlinx_cmd_demo_527/quectelCM/quectel-qmi-proxy.c:843-856 | a service message with a client id is written once per registration of its (type, id), one with client id 0 once per registration of its type, connection by connection |
| ProxyDelivery.DeliveredRun | forlinx_cmd_demo_527/quectelCM/quectel-qmi-proxy.c:803-856 | in every run the clients get exactly that of the service messages, and of every control response that finds a request waiting one copy for each connection on the descriptor of the first, in the order of the events |
| ProxyDelivery.WrittenRun | forlinx_cmd_demo_527/quectelCM/quectel-qmi-proxy.c:831-877 | in every run, with or without shared descriptors, the modem gets exactly the service messages, each request that finds the queue empty, and after every control message the head of the queue once for each connection on its descriptor |
| ProxyDelivery.ResetExactly | forlinx_cmd_demo_527/quectelCM/quectel-qmi-proxy.c:815-820 | the loop is told to end if and only if a revocation has been forwarded to a connected client |
| ProxyExit.EveryAcceptedIsClosed | forlinx_cmd_demo_527/quectelCM/quectel-qmi-proxy.c:642-696 | at the end of every run the descriptors closed are those accepted, in the eight bits kept of them, each as often as it was accepted |
| ProxyExit.ClosedExactly | forlinx_cmd_demo_527/quectelCM/quectel-qmi-proxy.c:642-696 | the accepted descriptors themselves are closed, and nothing else is, if and only if all of them lie in 0..255: one of 256 or more, of which eight bits are kept, never is |
| ProxyExit.DrainClosesAll | forlinx_cmd_demo_527/quectelCM/quectel-qmi-proxy.c:1308-1313 | the exit drain leaves no connection and closes every descriptor once, in list order, writing nothing |
| Tlv.ParseEncode | forlinx_cmd_demo_527/quectelCM/QMIThread.c:67-86 | parsing the encoding of a list of elements gives the list |
| Tlv.EncodeParse | forlinx_cmd_demo_527/quectelCM/QMIThread.c:67-86 | encoding what was parsed gives the bytes |
| Tlv.ElementBytes | forlinx_cmd_demo_527/quectelCM/QMIThread.c:67-86 | an element is its type, its length with the low byte first, and its value |
| Tlv.GetTLV | forlinx_cmd_demo_527/quectelCM/QMIThread.c:67-86 | on every well-formed body the walk with a 16-bit countdown finds the first element of the type, the n-th for 0x1000 + n, or nothing |
| Tlv.QmiFindTlv | forlinx_cmd_demo_527/quectelCM/quectel-qmi-proxy.c:909-924 | the proxy's walk, which counts up, finds the same first element |
| Tlv.NthElement | forlinx_cmd_demo_527/quectelCM/QMIThread.c:74-76 | the indexed lookup yields the n-th element, and nothing past the last |
| Tlv.DumpTlv | forlinx_cmd_demo_527/quectelCM/MPQMUX.c:317-337 | the indexed loop visits every element once, in order, and stops |
| Tlv.TruncatedElementWraps | forlinx_cmd_demo_527/quectelCM/QMIThread.c:81 | when an element claims more than is left, the walk passes it to a place behind the body and goes on there if and only if that is by at most 65533 bytes |
| Profile.QStrCpy | forlinx_cmd_demo_527/quectelCM/QMIThread.c:56-60 | the characters are appended and a NUL lands one byte behind them |
| Profile.PutString | forlinx_cmd_demo_527/quectelCM/QMIThread.c:213-219 | with what follows still to be written, the bytes are those of the element: the NUL is overwritten |
| Profile.WdsStartNwInterfaceReq | forlinx_cmd_demo_527/quectelCM/QMIThread.c:179-269 | the bytes built are exactly the encoding of the intended elements, and the length returned is theirs |
| Profile.WdsModifyProfileSettingsReq | forlinx_cmd_demo_527/quectelCM/QMIThread.c:489-555 | likewise for the request that stores a profile |
| Profile.Composer.GetQMUXTransactionId | forlinx_cmd_demo_527/quectelCM/QMIThread.c:88-93 | ids run from 1 to 65535 and start again at 1 |
| Profile.Composer.ComposeQMUXMsg | forlinx_cmd_demo_527/quectelCM/QMIThread.c:95-131 | the message is header and encoded elements and nothing else, and the fields answers are matched by are those of the request; without a client id there is none and no transaction id is used up |
| Profile.HeaderBytes | forlinx_cmd_demo_527/quectelCM/QMIThread.c:95-121 | what each byte of the header is, with the low byte of every number first |
| ProfileElements.StartElements | forlinx_cmd_demo_527/quectelCM/QMIThread.c:189-266 | of a request to start a call: the values of technology, access point, family and index of the profile under their types, none but these and the login, and with CDMA no access point and no index |
| ProfileElements.StartLogin | forlinx_cmd_demo_527/quectelCM/QMIThread.c:179-246 | user name, password and kind of authentication under theirs: those of the profile, or with CDMA and none in the profile the supplied ones and kind 2 |
| ProfileElements.StartOrder | forlinx_cmd_demo_527/quectelCM/QMIThread.c:189-266 | each at most once and in the order of the source |
| ProfileElements.ModifyElements | forlinx_cmd_demo_527/quectelCM/QMIThread.c:489-555 | the same for a request to store a profile: the index behind a 0, the kind of address by the families enabled, and the strings and the kind of authentication |
| ProfileElements.ModifyOrder | forlinx_cmd_demo_527/quectelCM/QMIThread.c:489-555 | each at most once and in the order of the source |
| Profile.MessageIsNested | forlinx_cmd_demo_527/quectelCM/QMIThread.c:113-121 | the outer length is the message without its first byte, the inner one the body, and the body parses to the intended elements |
| Profile.RequestGetProfile | forlinx_cmd_demo_527/quectelCM/QMIThread.c:2011-2024 | the four lookups return what the first elements of their types hold |
| Profile.ProfileRoundTrip | forlinx_cmd_demo_527/quectelCM/QMIThread.c:489-555 | the lookups recover the name, user and password that were stored, and the authentication type when both user and password are present |
| Slot.SameIdIff | forlinx_cmd_demo_527/quectelCM/QMIThread.c:88-93 | two requests get the same transaction id if and only if a whole number of counter periods (65535, or 255 for control) lies between them |
| Slot.AnswersAreOwn | forlinx_cmd_demo_527/quectelCM/QMIThread.c:596-687 | in every interleaving a frame handed back has the type, client id and transaction id of that very request as it went out |
| Slot.NoDoubleFree | forlinx_cmd_demo_527/quectelCM/QMIThread.c:596-687 | in every interleaving no block is freed twice |
| Slot.LateAnswerIff | forlinx_cmd_demo_527/quectelCM/QMIThread.c:577-591 | a frame handed back also answers another request exactly when both went to the same client of the same service a whole number of periods apart |
| Slot.LateAnswerNeverReturned | forlinx_cmd_demo_527/quectelCM/QMIThread.c:577-687 | so within 65535 (or 255) requests a late answer is never returned for another request |
| Slot.LateAnswerHappens | forlinx_cmd_demo_527/quectelCM/QMIThread.c:577-687 | a run, for either counter, in which a late answer to the first request is returned for the one a whole period later |
| SlotCalls.CallsRun | forlinx_cmd_demo_527/quectelCM/QMIThread.c:95-131 | in every run the requests go out in the order they were made, each with its own service, but 0x01 for 0x11 when there is a device, its own client id, or 0 for control, and the next id of its counter |
| SlotCalls.CallReturns | forlinx_cmd_demo_527/quectelCM/QMIThread.c:596-665 | from any state reached: a call that goes out returns the first answer with its service, client id and transaction id, to a caller who wants it and whose wait a signal ended, unless the reader quit before or had no memory; and otherwise nothing |
| SlotCalls.Ipv6CallReturns | forlinx_cmd_demo_527/quectelCM/QMIThread.c:577-638 | so an IPv6 request gets its answer, which comes on service 0x01 |
| SlotCalls.Account | forlinx_cmd_demo_527/quectelCM/QMIThread.c:596-665 | in every run each block allocated has been given back, is held in the slot, or was in the slot, not given back, when a later request was composed: those are lost |
| Slot.Advance | forlinx_cmd_demo_527/quectelCM/QMIThread.c:88-93 | both counters start again at 1 |
| Slot.QmiSlot.NextTransactionId | forlinx_cmd_demo_527/quectelCM/QmiWwanCM.c:28-33 | the control counter runs from 1 to 255 |
| Slot.QmiSlot.Compose | forlinx_cmd_demo_527/quectelCM/QmiWwanCM.c:37-66 | a block with the next id of its counter |
| Slot.QmiSlot.DeviceSend | forlinx_cmd_demo_527/quectelCM/QmiWwanCM.c:90-119 | the IPv6 service type, 0x11, is rewritten to 0x01 in the posted request unless there is no device; every other is left |
| Slot.QmiSlot.Send | forlinx_cmd_demo_527/quectelCM/QMIThread.c:596-620 | performs the specified send step: the request is posted, an old response forgotten |
| Slot.QmiSlot.Receive | forlinx_cmd_demo_527/quectelCM/QMIThread.c:645-665 | performs the specified receive step: only a matching frame frees the request and fills the slot |
| Slot.QmiSlot.ReaderQuits | forlinx_cmd_demo_527/quectelCM/QMIThread.c:647-656 | performs the specified quit step |
| Slot.QmiSlot.Wake | forlinx_cmd_demo_527/quectelCM/QMIThread.c:621-638 | performs the specified end of a wait |
| Registration.RequestRegistrationState | forlinx_cmd_demo_527/quectelCM/QMIThread.c:1364-1591 | the walk ends on every well-formed body and leaves what the fold over its elements gives |
| Registration.RegistrationIs | forlinx_cmd_demo_527/quectelCM/QMIThread.c:1364-1591 | attached is the OR over the packet-domain elements; CDMA is reported if and only if some element speaks for CDMA or HDR and none for LTE or NR5G |
| Registration.OrderDoesNotMatter | forlinx_cmd_demo_527/quectelCM/QMIThread.c:1364-1591 | neither depends on the order of the elements |
| Registration.PersonalityOrder | forlinx_cmd_demo_527/quectelCM/QMIThread.c:1484-1490 | the eHRPD flag is the same in every order if and only if no element names eHRPD, or none attaches, or one does both |
| Face.IntersectionSymmetric | forlinx_cmd_demo_527/npu_detect_face_test/face_det_postprocess.cpp:34-51 | the intersection does not depend on which box comes first |
| Face.IntersectionIs | forlinx_cmd_demo_527/npu_detect_face_test/face_det_postprocess.cpp:34-51 | it is the area of the box of the points both boxes contain, and 0 if there are none |
| Face.IntersectionBounds | forlinx_cmd_demo_527/npu_detect_face_test/face_det_postprocess.cpp:34-51 | for boxes with positive sides it lies between 0 and the smaller area |
| Face.OverlapBounds | forlinx_cmd_demo_527/npu_detect_face_test/face_det_postprocess.cpp:151-153 | intersection over union lies between 0 and 1, is symmetric, is 1 for a box with itself, and multiplied with the areas less the intersection gives the intersection |
| FaceProposals.OffsetInside | forlinx_cmd_demo_527/npu_detect_face_test/face_det_postprocess.cpp:68-110 | every value the decoder reads lies inside 21 planes per anchor pair |
| FaceProposals.OffsetInjective | forlinx_cmd_demo_527/npu_detect_face_test/face_det_postprocess.cpp:68-110 | different channels of different cells are read at different indices |
| FaceProposals.CandidatesComplete | forlinx_cmd_demo_527/npu_detect_face_test/face_det_postprocess.cpp:78-122 | a face is proposed if and only if some cell's full confidence passes and the face is that cell's |
| FaceProposals.ObjectnessFirst | forlinx_cmd_demo_527/npu_detect_face_test/face_det_postprocess.cpp:83-87 | the test on the objectness alone drops no cell whose confidence passes |
| FaceProposals.DecodedProper | forlinx_cmd_demo_527/npu_detect_face_test/face_det_postprocess.cpp:89-104 | a decoded box has positive sides whose product is its area; its score lies between 0 and 1 |
| FaceDecode.DecodedShows | forlinx_cmd_demo_527/npu_detect_face_test/face_det_postprocess.cpp:89-119 | score, middle, sides, area and landmarks of a decoded face, in terms of the values at the cell's 21 indices |
| FaceDecode.ProposalsAre | forlinx_cmd_demo_527/npu_detect_face_test/face_det_postprocess.cpp:68-122 | a face is proposed if and only if its score passes and some cell's values stand for just it |
| FaceDecode.DecodedNear | forlinx_cmd_demo_527/npu_detect_face_test/face_det_postprocess.cpp:89-104 | whatever the values, the middle of the box lies in its cell or less than half a cell outside, and the sides are less than four times the anchor's |
| FaceDecode.ProposedInOrder | forlinx_cmd_demo_527/npu_detect_face_test/face_det_postprocess.cpp:68-122 | no cell is proposed twice, and the proposals come in the order of the cells |
| FaceProposals.GenerateProposals | forlinx_cmd_demo_527/npu_detect_face_test/face_det_postprocess.cpp:58-124 | the loops append exactly the faces of the passing cells, in cell order: those that FaceDecode.DecodedShows describes |
| FaceSort.ScanUp | forlinx_cmd_demo_527/npu_detect_face_test/face_det_postprocess.cpp:169-170 | the upward scan stops at or before a place known not to beat the pivot |
| FaceSort.ScanDown | forlinx_cmd_demo_527/npu_detect_face_test/face_det_postprocess.cpp:172-173 | the downward scan stops at or after a place known not to be beaten |
| FaceSort.Partition | forlinx_cmd_demo_527/npu_detect_face_test/face_det_postprocess.cpp:161-185 | the scans stay inside the range; it is split into two disjoint, shorter parts with only the pivot's score between them |
| FaceSort.QsortDescentRange | forlinx_cmd_demo_527/npu_detect_face_test/face_det_postprocess.cpp:161-196 | a permutation of the range in descending order that touches nothing outside it |
| FaceSort.QsortDescentInplace | forlinx_cmd_demo_527/npu_detect_face_test/face_det_postprocess.cpp:198-204 | the whole vector is permuted into descending order |
| FaceNms.NmsSortedBBoxes | forlinx_cmd_demo_527/npu_detect_face_test/face_det_postprocess.cpp:126-159 | picked indices increase, no two picked boxes exceed the threshold, every other box exceeds it with a picked one before it |
| FaceNms.NmsUnique | forlinx_cmd_demo_527/npu_detect_face_test/face_det_postprocess.cpp:126-159 | there is only one such list |
| FaceNms.SuppressedByBetter | forlinx_cmd_demo_527/npu_detect_face_test/face_det_postprocess.cpp:126-159 | on sorted boxes, what is left out exceeds the threshold with a picked box of at least its score |
| FaceDetect.SuppressionDetects | forlinx_cmd_demo_527/npu_detect_face_test/face_det_postprocess.cpp:228-232 | sorting and suppression report some of the candidates, best first, apart from each other, and outdoing every other candidate, whatever order they came in |
| FaceDetect.RoundError | forlinx_cmd_demo_527/npu_detect_face_test/face_det_postprocess.cpp:237-240 | rounding is to the nearest pixel from minus a half on, and upwards below, since conversion truncates towards zero |
| FaceDetect.ReportedInOrder | forlinx_cmd_demo_527/npu_detect_face_test/face_det_postprocess.cpp:237-242 | a reported box has no negative side |
| FaceDetect.ReportedNear | forlinx_cmd_demo_527/npu_detect_face_test/face_det_postprocess.cpp:237-249 | a report holds each corner and landmark rounded, the differences of the rounded corners as sides, and the score as it is |
| FaceDetect.CandidatesAre | forlinx_cmd_demo_527/npu_detect_face_test/face_det_postprocess.cpp:209-226 | the candidates are the faces that some cell of one of the three outputs, with its stride and its three pairs of anchors, stands for with a passing score |
| FaceDetect.CandidatesLie | forlinx_cmd_demo_527/npu_detect_face_test/face_det_postprocess.cpp:209-226 | every candidate lies near a cell of a grid of stride 8, 16 or 32 and is of about the size of one of its anchors |
| FaceDetect.PostprocessFaceDet | forlinx_cmd_demo_527/npu_detect_face_test/face_det_postprocess.cpp:206-251 | the outputs report exactly such a detection among the passing faces of the three grids; each is of a face that lies near a cell of one of the grids |
| Yuyv.LumaPlane | forlinx_cmd_demo_527/fltest_v4l2_npu/fltest_v4l2_npu.cpp:163-165 | every other byte is copied, in order |
| Yuyv.ChromaLine | forlinx_cmd_demo_527/fltest_v4l2_npu/fltest_v4l2_npu.cpp:168-171 | one chroma row: every pair is the rounded mean of the pair in two picture rows |
| Yuyv.ChromaPlane | forlinx_cmd_demo_527/fltest_v4l2_npu/fltest_v4l2_npu.cpp:167-173 | one such row for every two picture rows |
| Yuyv.ChromaAt | forlinx_cmd_demo_527/fltest_v4l2_npu/fltest_v4l2_npu.cpp:167-173 | pair k of chroma row r is the mean of rows 2r and 2r + 1, wherever it lies in the buffer |
| YuyvCrop.LumaAt | forlinx_cmd_demo_527/fltest_v4l2_npu/fltest_v4l2_npu.cpp:163-165 | luma byte n is source byte 2n |
| YuyvCrop.PlanarAt | forlinx_cmd_demo_527/fltest_v4l2_npu/fltest_v4l2_npu.cpp:167-173 | the chroma bytes of the planar form, by row and pair |
| YuyvCrop.ChromaIsMean | forlinx_cmd_demo_527/fltest_v4l2_npu/fltest_v4l2_npu.cpp:167-173 | each chroma byte is the mean, halves rounded up, of two picture bytes of its kind, one below the other |
| YuyvCrop.Yuyv2Nv21 | forlinx_cmd_demo_527/fltest_v4l2_npu/fltest_v4l2_npu.cpp:145-158 | exactly the planar form with V before U is written, and nothing behind it changes |
| YuyvCrop.Yuyv2Nv12 | forlinx_cmd_demo_527/fltest_v4l2_npu/fltest_v4l2_npu.cpp:160-178 | exactly the planar form is written, and the crop of it to the second buffer |
| YuyvCrop.Nv21SwapsPairs | forlinx_cmd_demo_527/fltest_v4l2_npu/fltest_v4l2_npu.cpp:145-158 | NV21 is NV12 with the bytes of each chroma pair exchanged |
| YuyvCrop.CopyCrop | forlinx_cmd_demo_527/fltest_v4l2_npu/fltest_v4l2_npu.cpp:175-177 | the two copies take the rows of the crop, measured in the fixed capture size |
| YuyvCrop.CropCommutes | forlinx_cmd_demo_527/fltest_v4l2_npu/fltest_v4l2_npu.cpp:175-177 | cropping an even number of rows of a picture of the capture's own, even, size is converting only its bottom rows |
| CropExact.CropExactly | forlinx_cmd_demo_527/fltest_v4l2_npu/fltest_v4l2_npu.cpp:175-177 | for a crop that stays inside the buffer, this holds of every picture if and only if the crop has no row, or the widths agree and it has one row, or the picture has the capture's size and the number of rows is even |
| Rotate.RotatedAt | forlinx_cmd_demo_527/fltest_csitest/fltest_test_mplane.cpp:67-75 | row i, column j of the turned picture is row h - j - 1, column i of the picture |
| Rotate.FourTurns | forlinx_cmd_demo_527/fltest_csitest/fltest_test_mplane.cpp:67-75 | four turns, with width and height exchanged each time, give the picture back |
| Rotate.TurnIsBijection | forlinx_cmd_demo_527/fltest_csitest/fltest_test_mplane.cpp:67-75 | a turn is one to one and onto |
| Rotate.YuvR90 | forlinx_cmd_demo_527/fltest_csitest/fltest_test_mplane.cpp:67-75 | the loops store exactly the turned plane |
| Rotate.TurnPart | forlinx_cmd_demo_527/fltest_csitest/fltest_test_mplane.cpp:81-84 | one pass turns the U (or the V) bytes and leaves the others alone |
| Rotate.UvR90 | forlinx_cmd_demo_527/fltest_csitest/fltest_test_mplane.cpp:77-90 | the two passes turn the plane of (U, V) pairs |
| Rotate.ChromaStaysAligned | forlinx_cmd_demo_527/fltest_csitest/fltest_test_mplane.cpp:67-90 | after turning both planes a pixel still has the chroma pair of the pixel it came from |
| Mbim.BufferLength | forlinx_cmd_demo_527/quectelCM/mbim-cm.c:1932-1937 | the allocation is the sum of the three strings, each rounded up to four bytes |
| Mbim.SlotBytes | forlinx_cmd_demo_527/quectelCM/mbim-cm.c:1939-1976 | every character is followed by a zero, and zeros fill up to the next multiple of four, no further |
| Mbim.PopulateConnectData | forlinx_cmd_demo_527/quectelCM/mbim-cm.c:1927-1980 | the data is the three strings, two bytes a character, each padded with zeros; the three offset and size pairs point at them, 0 and 0 for a missing string |
| Mbim.RequestIsPlaced | forlinx_cmd_demo_527/quectelCM/mbim-cm.c:1932-1977 | for all lengths: offsets are multiples of four, behind the fixed part, inside the allocation, and the extents do not meet |
| Mbim.GetSegment | forlinx_cmd_demo_527/quectelCM/mbim-cm.c:1148-1158 | the reader takes every other byte and ends the string with a zero |
| Mbim.SegmentsRoundTrip | forlinx_cmd_demo_527/quectelCM/mbim-cm.c:1148-1158 | reading each offset and size pair gives its string back |
| DialRuns.Backoff | forlinx_cmd_demo_527/quectelCM/main.c:541-602 | over every run, the round after one that failed starts no sooner than 5, 10, 20, 40, or 60 seconds after its end, by the number of rounds that failed since the last that connected, unless the wait is cut short between the two; however the next round, or any other, ends |
| DialRuns.FirstFailures | forlinx_cmd_demo_527/quectelCM/main.c:583-593 | while the rounds from the first on fail, the gaps are 5, 10, 20, 40, then 60 seconds, from the failures already counted, unless a wait is cut short |
| DialRuns.DelaysGrow | forlinx_cmd_demo_527/quectelCM/main.c:583-589 | the delays are 5, 10, 20, 40 and 60 seconds and stay there |
| DialRuns.SuccessStartsAgain | forlinx_cmd_demo_527/quectelCM/main.c:598-601 | after a round that leaves some family up and no enabled one down, the gaps after the failed rounds that follow it directly are again 5, 10, 20, 40, then 60 seconds, unless a wait is cut short |
| DialRuns.UnsuccessfulRound | forlinx_cmd_demo_527/quectelCM/main.c:581-597 | a round in which no call succeeds puts off the next one if and only if an enabled family was known to be down before it |
| DialRuns.UnknownStatusDoesNotWait | forlinx_cmd_demo_527/quectelCM/main.c:541-602 | a run from the beginning (a check that learns nothing, loopback turned on twice) in which two rounds fail in the same millisecond |
| DialRuns.WaitCutShort | forlinx_cmd_demo_527/quectelCM/main.c:678-694 | the wait is shortened if and only if the registration is lost, or the list of calls changes while connected, early enough |
| DialRuns.ListChangeWaits | forlinx_cmd_demo_527/quectelCM/main.c:690-694 | after a change of the list of calls while connected, the next round starts a second later or more, unless that wait is cut short in its turn |
| DialRuns.AlarmIsOnTime | forlinx_cmd_demo_527/quectelCM/main.c:545-548 | if the wait still lasts when the clock is read again, the alarm in whole seconds goes off when it is over, less than a second late; if it has ended less than a second before, no alarm is set; later than that the subtraction wraps |
| DialRuns.AlarmStep | forlinx_cmd_demo_527/quectelCM/main.c:545-694 | an event leaves an alarm due before a call is allowed if and only if it is a failed round that reads the clock later than it sets the alarm, or a change of the list of calls while connected or a loss of registration that moves the allowed time behind the alarm |
| DialRuns.AlarmRun | forlinx_cmd_demo_527/quectelCM/main.c:545-694 | throughout a run no alarm is due before a call is allowed, if and only if no event does so |
| DialRuns.RetryingStep | forlinx_cmd_demo_527/quectelCM/main.c:534-688 | while a call is due, an event leaves an alarm within reach or a signal that leads to a call, if and only if it is not the last such signal, found too early at the first reading of the clock and no longer so at the second |
| DialRuns.RetryingRun | forlinx_cmd_demo_527/quectelCM/main.c:534-688 | throughout a run no retry is forgotten, although every signal cancels the alarm, if and only if none is lost between those two readings |
| DialRuns.RetryForgotten | forlinx_cmd_demo_527/quectelCM/main.c:545-593 | a run on the usual path, a failed round and its own alarm, that leaves a call due with no alarm and no signal |
| DialRuns.PollAsksAgain | forlinx_cmd_demo_527/quectelCM/main.c:505-512 | a forgotten retry is taken up when poll next times out: its check asks for the call if an enabled family is still down |
| DialRuns.BeginRetries | forlinx_cmd_demo_527/quectelCM/main.c:362-370 | this holds when the loop is entered |
| DialRuns.AuthRun | forlinx_cmd_demo_527/quectelCM/main.c:553-563 | over every run the kind of authentication is the configured one until a second setup with the other kind succeeds; afterwards it depends only on how often that happened |
| DialSignals.RoundConnects | forlinx_cmd_demo_527/quectelCM/main.c:551-601 | which family a round connects, by the answers to its setups and to the query of the address; the other kind of authentication is kept only if it succeeded; when some family is then up and no enabled one down the next round may start at once |
| DialSignals.OnlyRoundsDial | forlinx_cmd_demo_527/quectelCM/main.c:534-742 | nothing else changes the kind of authentication, and nothing but a check the status of a family |
| DialSignals.SignalsRun | forlinx_cmd_demo_527/quectelCM/main.c:508-742 | until the loop starts over, every signal it sends itself is read once, in the order they were sent |
| DialSignals.AlarmLasts | forlinx_cmd_demo_527/quectelCM/main.c:534-536 | only a signal to try a call sets the alarm; it goes off once, and every other signal that is read cancels it |
| DialSignals.KnownRun | forlinx_cmd_demo_527/quectelCM/main.c:678-739 | in every run the loop goes by the registration and the loopback last reported |
| DialSignals.LeavesRun | forlinx_cmd_demo_527/quectelCM/main.c:518-711 | the loop goes on if and only if no signal to stop is read, poll does not fail, the device is not gone after a reset, and not lost without the option to survive that |
| DialClient.CheckLearns | forlinx_cmd_demo_527/quectelCM/main.c:604-639 | what a check learns of each family, that an address other than the modem's counts as down, and that a call is asked for if an enabled family is down |
| DialClient.CheckDecides | forlinx_cmd_demo_527/quectelCM/main.c:628-634 | after a check that finds both families down the client does not run, after one that finds a family up it does, and any other leaves it |
| DialClient.ClientRun | forlinx_cmd_demo_527/quectelCM/main.c:133-148 | in every run the client runs exactly if the events say so: the last decision counts, except that while a reset has made the loop forget that the client runs no decision stops it |
| DialClient.LastDecisionRuns | forlinx_cmd_demo_527/quectelCM/main.c:133-148 | without a reset at an up link it runs if and only if the last check that decided, stop or loss of the device said so |
| DialClient.UpThenDown | forlinx_cmd_demo_527/quectelCM/main.c:628-634 | a run that finds the connection up and then down starts and stops the client |
| DialLink.LinkRun | forlinx_cmd_demo_527/quectelCM/main.c:133-148 | over every run the address client is started and stopped in turn if and only if no modem reset comes while the link is up and is followed by a check that finds a family up |
| DialLink.LinkExit | forlinx_cmd_demo_527/quectelCM/main.c:641-747 | when the loop has been left, the client still runs if and only if a reset came while the link was up and no later check found a family up |
| DialLink.TwoResetsRestart | forlinx_cmd_demo_527/quectelCM/main.c:704-711 | a run in which the client is started twice in a row: up, a reset, a check that finds the call suspended, another reset with the link still down, up |
| DialLink.ResetLeavesClientRunning | forlinx_cmd_demo_527/quectelCM/main.c:704-711 | a run that is left with the client never stopped |
| Dialer.Dialer.constructor | forlinx_cmd_demo_527/quectelCM/main.c:362-370 | the loop begins with nothing known and a check asked for |
| Dialer.Dialer.Start | forlinx_cmd_demo_527/quectelCM/main.c:541-602 | after a failed round the next is allowed, and the alarm set, the delay due after its end; too early, the alarm is set for less than a second after the wait, or not at all if the wait ends before the clock is read again |
| Dialer.Dialer.UsbnetLinkChange | forlinx_cmd_demo_527/quectelCM/main.c:137-148 | afterwards the client runs exactly if the link is up, and its starts and stops still alternate |
| Dialer.Dialer.CheckCall | forlinx_cmd_demo_527/quectelCM/main.c:604-639 | the statuses become those of the specified check; a client in step with the link is stopped if both are then down and runs if one is up; a call is asked for if an enabled family is down |
| Dialer.Dialer.HandleSignal | forlinx_cmd_demo_527/quectelCM/main.c:534-657 | reading a signal cancels the alarm; a round is dialled exactly when the signal asks for a call that may be made; a check that finds both families down stops the client, one that finds a family up has it run |
| Dialer.Dialer.Handle | forlinx_cmd_demo_527/quectelCM/main.c:508-742 | one event, or what the source does for it: the step of the same name on the loop's variables |
| Dialer.Dialer.Serve | forlinx_cmd_demo_527/quectelCM/main.c:508-757 | the loop performs the run of its events and dials exactly its rounds, each no sooner after a failed one than the back-off allows unless the wait is cut short, however other rounds end; no retry is forgotten at its end unless one was lost between two readings of the clock; authentication is as proved of runs; the address client runs exactly if the events of the run say so, and its starts and stops alternate exactly under the condition of LinkRun |
| TimedWait.FewSlices | forlinx_cmd_demo_527/quectelCM/util.c:50-67 | at most seven slices, whose total is at least the time asked for and less than one slice more |
| TimedWait.CountsExactly | forlinx_cmd_demo_527/quectelCM/util.c:58 | the loop, with its 32-bit count, makes as many passes as it takes slices if and only if the time is a multiple of four or five of its slices stay below the wrap |
| TimedWait.WaitEnds | forlinx_cmd_demo_527/quectelCM/util.c:58 | whatever the time, the count reaches it in the end |
| TimedWait.CondTimeoutNp | forlinx_cmd_demo_527/quectelCM/util.c:48-72 | for every 32-bit time the loop ends; it reports a timeout only when the count has reached the time, after the slices it takes unless the count wraps, and otherwise the first answer that is no timeout |
| TimedWait.LongWaitWraps | forlinx_cmd_demo_527/quectelCM/util.c:58 | when the count wraps the loop makes more passes than it takes slices |
| TimedWait.Timespec.SetRelative | forlinx_cmd_demo_527/quectelCM/util.c:32-46 | the deadline has less than 10^9 nanoseconds and is exactly now plus the time |
| Rtsp.RunKeepsInv | forlinx_cmd_demo_527/fltest_v4l2_npu/fltest_v4l2_npu.cpp:94-119 | the started flag is set exactly while the index is at least 1, and no IDR mark is left over |
| Rtsp.StepConnects | forlinx_cmd_demo_527/fltest_v4l2_npu/fltest_v4l2_npu.cpp:94-102 | a closed gate goes by the first sample of the connection, an open one by the second |
| Rtsp.WrittenWhole | forlinx_cmd_demo_527/fltest_v4l2_npu/fltest_v4l2_npu.cpp:119-129 | a packet is written whole, its second buffer behind its first, and nothing for an empty one |
| Rtsp.IdrBytes | forlinx_cmd_demo_527/fltest_v4l2_npu/fltest_v4l2_npu.cpp:107 | an IDR picture is told by its fifth byte, whatever the upper three bits |
| Rtsp.HeaderBytes | forlinx_cmd_demo_527/fltest_v4l2_npu/fltest_v4l2_npu.cpp:89-92 | the header begins with the first packet; behind a short one the buffer is as it was |
| Rtsp.GateWrites | forlinx_cmd_demo_527/fltest_v4l2_npu/fltest_v4l2_npu.cpp:82-133 | every run writes, for each maximal connected period, nothing, or the header, an IDR packet and every later packet of the period; and nothing else |
| Rtsp.MyEncoderCallback.EncoderDataReady | forlinx_cmd_demo_527/fltest_v4l2_npu/fltest_v4l2_npu.cpp:82-133 | performs the specified step, or nothing for a single JPEG frame |

## Left out

- The proxy before its server socket is open (`quectel-qmi-proxy.c` 782-801, 860-862 and 882-907), where it talks to the modem for itself.
- Sockets and polling: failed or partial reads and writes, the limit of the poll array, and the events that end the proxy's loop other than a revocation. A failed accept and a failed malloc are not modelled.
- Bytes of QMI messages inside the proxy: a message is its type, client id, flags, results and the rest; that the length field matches the bytes read is taken from the check in the loop.
- Malformed element lists: the walks are stated for bodies that are cut into elements exactly; `TruncatedElementWraps` shows why. The fields the registration fold reads are required to lie inside their elements.
- Strings that overflow the 256-byte request buffer. `Fits` demands that the elements fit, with one byte more for the terminator when a string comes last.
- The branch of `WdsStartNwInterfaceReq` for eHRPD (lines 261-264), which is dead: the test around it excludes CDMA. What `requestGetProfile` does with the strings, beyond reading them, is compiled out.
- Slot.AnswersAreOwn: safety only. A signal that arrives between two slices of the timed wait is not seen, so a call whose wait runs out returns nothing even if its answer has come (`CallReturns` takes how the wait ended as given). What callers do with a request after a failed call is not modelled. A write that fails half-way and one that fails at once are the same outcome, and a device that does not become writable in time is reported as success although nothing was written, as in the source (`QmiWwanCM.c` 102-118).
- The remaining cases of `QmiThreadRecvQMI` (lines 666-685), which pass indications to the main loop.
- Network codes and the capability string of the registration report, and the second request it makes for a CDMA home network.
- Floating point: `float` and `double` are `real`, so rounding, overflow and NaN scores are not modelled; `sigmoid` is any function strictly between 0 and 1, which the float version reaches only up to rounding.
- The two recursive sorts that may run in parallel are run one after the other; that their ranges are disjoint is proved. The size of the caller's output array is not checked by the source and is not part of this model (`awf_detection.h` is missing).
- FaceNms.NmsSortedBBoxes: is stated for boxes with positive sides, which decoding guarantees; for others the quotient can be by zero.
- Odd widths of a YUYV picture, and odd dimensions of a chroma plane to be turned: the formats have none. The unused width parameter of the crop is a parameter here too.
- The bytes of the header buffer behind a first packet of fewer than 32 bytes are arbitrary, as they are uninitialised in the source; a longer first packet would overflow it and is a precondition, as is that a packet has a fifth byte.
- 32-bit sizes and counters, except where an overflow is the point (`Sub16`, the client descriptor, transaction ids, the timed wait, the alarm's unsigned subtraction): string lengths in the MBIM command, the clock, the number of failures.
- The other fields of the MBIM connect command and the indication handling, where the register state falls through into the packet service (lines 1482-1489).
- Restarting the main loop beyond new pipes, a new registration and a check: finding the device again, and restarts that fail, which return without touching the address client (`main.c` 384-446). Of the exits, an interrupt, a lost device and a failed poll or a pipe that hangs up are events; what the reader thread does with the request to quit is not modelled. Background mode, `CONFIG_EXIT_WHEN_DIAL_FAILED`, and the checks of an address after dialling other than their result.
- The same programs under `demo_example/`, and the proxy's own copy of the timed wait.
- Peripheral demos, vendor calls, drawing and RGB conversion, logging, and name tables.
