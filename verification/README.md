# A model of the Matter-Zigbee bridge

The RW612 bridges Matter to Zigbee through a control bridge on a serial port. This project models the logic of that
bridge in Dafny and proves what it keeps. Methods, classes, arrays and loops follow the C and C++ functions; each is
proved against a function on values, and the theorems are about those functions.

| part | files | what is proved |
|---|---|---|
| serial frames | Bytes, SerialFrame, SerialDecoder, SerialFaults, SerialPort | the encoder and the seven-state decoder are inverse over whole noisy streams; which frames END accepts, cut anywhere; which byte errors the checksum finds and which it lets pass |
| waiting and dispatch | WaitSlots, WaitMachine, WaitRuns, Listeners | safety of the five shared wait slots, with exactly the steps that break it, a schedule without them, and runs from boot that break it; conservation of dispatched messages over a linked list and a bounded queue |
| endpoints, saved nodes, routing | EndpointSearch, SavedNodes, DeviceKinds, Bridge, BridgeRuns, BridgeRouting, BridgeJoins, BridgeSystem | the retry loop ends exactly when it can; the saved table is a map; over any run of boots, joins and polls every endpoint is routed to one node, and to the right one exactly when joins do not overlap |
| commissioning and tables | Devices, Commissioning, CommissioningRuns, AttributeTable, WatchedAttributes, CommissionedDevices, DeviceTables | the order of answers behind every active device, its stability, and when the answers suffice; which attribute ids each cluster is watched by; attribute counters equal a recount |
| line editor | LineEditor, EditorRuns, Shell | the buffer edited in place is an editor on sequences; what runs of keys do to text, cursor and history |
| addresses, payloads | HexAddress, Payloads | conversion is exact where validation passed; payload lengths and contents |

`Options` holds the option type. `dafny verify dfyconfig.toml` checks everything.

How the source's environment appears: bytes that arrive on the UART are a sequence; an event group is one bit; the RTOS
queue is a bounded sequence; the flash file is an optional list of rows that is read and written whole; the Matter SDK is
the set of endpoint ids in use (it answers EXISTS exactly for those) and a set of ids that it refuses for other reasons;
the outcome of each request on the serial link is a parameter. Integer widths are written out: 8-bit indices and counters,
16-bit ids, 64-bit accumulators and 32-bit sizes wrap as they do in C.

Where the code and its comments or evident purpose differ, the model follows the code, a lemma gives an input that shows
the difference, and another says for which inputs the code does what was meant:

- a frame is accepted without all of its payload or header: the examples are `SerialDecoder.MissingPayloadMayPass`,
  `SerialFaults.BootFragmentIsAccepted` and `HeaderMayPass`, the condition is `SerialFaults.AcceptedExactlyWhen`; the
  fragment accepted at boot is a message of type 0, which is harmful to the wait slots;
- a changed length byte can pass: `SerialDecoder.LengthByteErrorMayPass`, exactly under
  `SerialFaults.LengthErrorPassesExactlyWhen`;
- a wait slot can be left free with its event bit set (`WaitRuns.TimeoutBeforeSignal`, `TypeZeroArrives`,
  `MessageBeforeRelease`), shared (`OtherStatusSharesSlot`), or made to return a wrong message (`LateMessageIsReturned`,
  `WrongMessageIsReturned`, `RequestIsReturned`, `SwappedStatusIsReturned`), and a wait can be refused beside a free slot
  (`RefusedBesideFreeSlot`), each by a run from boot; exactly the steps named by `WaitMachine.Harmless` keep the promises
  (`StepIsSafeExactlyWhen`, `HarmfulStepBreaksPromise`), a schedule made of them is in `WaitRuns.CalmRunIsSafe`, and a
  wait is refused exactly as in `WaitMachine.RefusedExactlyWhenEachTaken`;
- two joins before the first descriptor mix up the nodes (`BridgeRouting.InterleavedJoinsMisroute`); a descriptor reaches
  its own node exactly under `DescriberIsRoutedExactlyWhen`;
- restore posts without a poll between lose rows (`Bridge.RestoreWithoutPollLosesRow`, exactly as in
  `RestoreRebuildsPolledRows`);
- a temperature sensor, and a light that lists colour before level, come back as another kind
  (`DeviceKinds.KindsAgreeExactlyWhen`);
- a later descriptor can leave attribute counters wrong (`DeviceTables.MovedBasicIsMiscounted`, exactly as
  `HandleSimpleDescriptorResponse` says, and a later endpoint list as `HandleActiveEndPointResp` says);
- the shell's history takes a line again that equals the last one and can leave out one that differs
  (`LineEditor.HistoryMistakes`, exactly as in `RememberedAsMeantExactlyWhen`), although shell.c:306 says it takes a line
  if different;
- the down key after the up key brings an older line first (`EditorRuns.DownAfterUps`, for every number of presses as in
  `UpsRecall` and `DownsRecall`);
- a decimal number beyond 64 bits can pass as an endpoint (`HexAddress.EndpointCheckWraps`, exactly as `IsAEndpoint` says).

## Model

| member | source | states |
|---|---|---|
| SerialFrame.StuffRoundTrip | zigbee_bridge/rt/rw61x/ZCB/SerialLink.c:531-541 | destuffing the stuffed bytes gives the bytes back and leaves no open escape, for every byte sequence |
| SerialFrame.StuffShape | zigbee_bridge/rt/rw61x/ZCB/SerialLink.c:531-541 | stuffed bytes contain no START and no END and are at most twice as many |
| SerialFrame.StuffEscapes | zigbee_bridge/rt/rw61x/ZCB/SerialLink.c:533-538 | an escape byte in a stuffed sequence is always followed by a byte from 0x10 to 0x1F: 0x02 occurs only as an escape |
| SerialFrame.StuffIsTheEscaping | zigbee_bridge/rt/rw61x/ZCB/SerialLink.c:531-541 | stuffed bytes are exactly those that read back as the data and hold no byte below 0x10 but 0x02 in front of a byte from 0x10 to 0x1F: the escaping is the only one |
| SerialFrame.StuffedByteStands | zigbee_bridge/rt/rw61x/ZCB/SerialLink.c:533-540 | each data byte stands at its place: below 0x10 as 0x02 and the byte plus 0x10, otherwise as itself |
| SerialFrame.FrameIsTheWireForm | zigbee_bridge/rt/rw61x/ZCB/SerialLink.c:467-507 | the frame of a message is the one sequence with START, END, every byte below 0x10 between them escaped, and the high and low bytes of type and length, a cancelling checksum and the payload inside |
| SerialFrame.ChannelMaskFrame | zigbee_bridge/rt/rw61x/ZCB/cmd.c:66-80 | the 18 bytes on the wire of the message that selects channel 26 |
| SerialFrame.FrameBound | zigbee_bridge/rt/rw61x/ZCB/SerialLink.c:467-507 | a frame of n payload bytes has between n + 7 and 12 + 2n bytes, at most 254 for n up to 121; START and END stand only at its ends, escapes only before escaped bytes |
| SerialFrame.CrcIsCancellation | zigbee_bridge/rt/rw61x/ZCB/SerialLink.c:510-527 | the checksum byte is right exactly when the XOR of header, checksum and payload is zero |
| SerialFrame.BodyCancels | zigbee_bridge/rt/rw61x/ZCB/SerialLink.c:467-494 | every encoded message has XOR zero |
| SerialPort.CalculateCRC | zigbee_bridge/rt/rw61x/ZCB/SerialLink.c:510-527 | the loop computes the checksum function for every length below 256 |
| SerialPort.AddPayload | zigbee_bridge/rt/rw61x/ZCB/SerialLink.c:521-524 | its 8-bit loop adds every payload byte to the seed |
| SerialPort.Transmitter.LoadByteToTxBuffer | zigbee_bridge/rt/rw61x/ZCB/SerialLink.c:531-541 | appends the stuffed form of a byte (or the byte itself) to what the 256-byte buffer holds behind an 8-bit index |
| SerialPort.Transmitter.WriteMessage | zigbee_bridge/rt/rw61x/ZCB/SerialLink.c:467-507 | what is sent is the last len mod 256 bytes of the frame, because the index has 8 bits; a frame that fits is sent whole and is the one wire form of type and payload |
| SerialPort.FrameIsSentWhole | zigbee_bridge/rt/rw61x/ZCB/SerialLink.c:467-507 | the frame is sent whole exactly when it has at most 255 bytes, hence for every payload up to 121 bytes |
| SerialPort.SerialReader.ClearMessage | zigbee_bridge/rt/rw61x/ZCB/SerialLink.c:618-621 | the buffer is zeroed and the length set so that an END is ignored; the decoder state stays |
| SerialPort.SerialReader.StoreData | zigbee_bridge/rt/rw61x/ZCB/SerialLink.c:370-417 | one destuffed byte goes where the seven states put it |
| SerialPort.SerialReader.RxByte | zigbee_bridge/rt/rw61x/ZCB/SerialLink.c:330-422 | one byte does to type, length, CRC, count, escape flag, state and buffer what the decoder step says; a message is accepted exactly on an END at which length and checksum fit |
| SerialPort.SerialReader.ReadMessage | zigbee_bridge/rt/rw61x/ZCB/SerialLink.c:321-424 | the receive loop consumes bytes as the decoder run does, up to and including the first accepted END |
| SerialPort.SerialReader.ReadTask | zigbee_bridge/rt/rw61x/ZCB/SerialLink.c:611-624 | the reader task delivers, over any input, exactly the messages of the decoder run |
| SerialDecoder.DecoderRefinement | zigbee_bridge/rt/rw61x/ZCB/SerialLink.c:330-422 | after START and any further in-frame bytes the whole decoder state is a function of the destuffed bytes since START, whatever state it was in before |
| SerialDecoder.EndDecides | zigbee_bridge/rt/rw61x/ZCB/SerialLink.c:347-359 | END acts on exactly that state |
| SerialDecoder.EndAppends | zigbee_bridge/rt/rw61x/ZCB/SerialLink.c:347-359 | what a frame delivers is appended to what was delivered before |
| SerialDecoder.CompleteFrame | zigbee_bridge/rt/rw61x/ZCB/SerialLink.c:347-417 | with at least 5 + length destuffed bytes, END delivers exactly when length < 256 and the XOR of type, length, CRC and the first length data bytes is zero; surplus bytes are ignored |
| SerialDecoder.TruncatedFrame | zigbee_bridge/rt/rw61x/ZCB/SerialLink.c:347-359 | with fewer bytes the missing payload is read from what the buffer held: the END does not check that all data arrived |
| SerialDecoder.TruncatedFrameInClearedBuffer | zigbee_bridge/rt/rw61x/ZCB/SerialLink.c:347-359 | in a cleared buffer a frame cut after its checksum is accepted exactly when the XOR of the bytes that did arrive is zero |
| SerialFaults.AcceptedExactlyWhen | zigbee_bridge/rt/rw61x/ZCB/SerialLink.c:330-422 | acceptance of every frame by a quiet reader with a cleared buffer: fewer than 3 destuffed bytes never; 3 or 4 exactly when the announced length is below 256 and the checksum left by an earlier frame is the XOR of those bytes; 5 or more exactly when the length is below 256 and the bytes that arrived, up to the announced ones, cancel; and the message delivered |
| SerialFaults.HeaderIsJudged | zigbee_bridge/rt/rw61x/ZCB/SerialLink.c:324-356 | in any valid decoder state a frame cut before its checksum is judged by the old checksum, and by the old type, length and buffer where they were not replaced |
| SerialFaults.FrameIsJudged | zigbee_bridge/rt/rw61x/ZCB/SerialLink.c:347-356 | in any valid decoder state a frame with its checksum is judged with what the buffer held in place of missing payload |
| SerialFaults.LongFrameIsRejected | zigbee_bridge/rt/rw61x/ZCB/SerialLink.c:350-356 | a length of 256 or more, old or announced, is never accepted |
| SerialFaults.StaleChecksum | zigbee_bridge/rt/rw61x/ZCB/SerialLink.c:325-405 | the checksum that stays behind is that of the last frame whose checksum byte arrived |
| SerialFaults.DeliveryClears | zigbee_bridge/rt/rw61x/ZCB/SerialLink.c:614-624 | after a delivery the reader waits for START with nothing of the message left in it |
| SerialFaults.NextFrameIsJudgedAfresh | zigbee_bridge/rt/rw61x/ZCB/SerialLink.c:324-359 | so the frame after a delivered one is judged by its own bytes, and when cut in its header by the checksum before |
| SerialFaults.BootFragmentIsAccepted | zigbee_bridge/rt/rw61x/ZCB/SerialLink.c:324-356 | at boot the destuffed bytes 0, 0, 0 are delivered as an empty message of type 0 |
| SerialFaults.HeaderMayPass | zigbee_bridge/rt/rw61x/ZCB/SerialLink.c:324-356 | after a checksum 0x10 the bytes 0x10, 0, 0, which do not cancel, are delivered as a message |
| SerialDecoder.MissingPayloadMayPass | zigbee_bridge/rt/rw61x/ZCB/SerialLink.c:347-359 | a frame announcing one byte and carrying none is accepted with payload [0] |
| SerialDecoder.SingleByteErrorIsRejected | zigbee_bridge/rt/rw61x/ZCB/SerialLink.c:350-356 | for every accepted complete frame, one changed type, CRC or payload byte (any received bytes that destuff to it) is rejected |
| SerialDecoder.LengthByteErrorMayPass | zigbee_bridge/rt/rw61x/ZCB/SerialLink.c:350-356 | an example: a one-byte message is accepted as an empty one |
| SerialFaults.LengthErrorPassesExactlyWhen | zigbee_bridge/rt/rw61x/ZCB/SerialLink.c:350-356 | for every accepted frame and every change of its low length byte, in any decoder state: the changed frame is accepted if and only if the XOR of the bytes judged more, or less, equals the change |
| SerialFaults.LengthErrorOfExactFrame | zigbee_bridge/rt/rw61x/ZCB/SerialLink.c:350-356 | with just the announced bytes, a shorter length is accepted exactly when the bytes cut off add up to the change, a longer one in a cleared buffer never |
| SerialFaults.LengthHighErrorIsRejected | zigbee_bridge/rt/rw61x/ZCB/SerialLink.c:350-356 | a changed high length byte of an accepted frame is always rejected |
| SerialDecoder.HarmlessNoise | zigbee_bridge/rt/rw61x/ZCB/SerialLink.c:330-359 | noise with no START, with no END, or with its ENDs before its first START is harmless |
| SerialDecoder.HarmlessNoiseIsSilent | zigbee_bridge/rt/rw61x/ZCB/SerialLink.c:330-422 | harmless noise between frames delivers nothing |
| SerialDecoder.FrameIsReceived | zigbee_bridge/rt/rw61x/ZCB/SerialLink.c:321-424 | in any valid decoder state an encoded frame delivers exactly its message and leaves the reader waiting for START |
| SerialDecoder.StreamRoundTrip | zigbee_bridge/rt/rw61x/ZCB/SerialLink.c:321-424 | stream round trip: any list of messages with payloads up to 121 bytes, encoded, with harmless noise before, between and after, is delivered exactly, in order, with nothing extra |
| WaitSlots.SlotArray.Claim | zigbee_bridge/rt/rw61x/ZCB/SerialLink.c:264-316 | the claiming loop takes the first free slot and changes no other, or reports an error |
| WaitSlots.SlotArray.MessageQueue | zigbee_bridge/rt/rw61x/ZCB/SerialLink.c:557-607 | the delivery loop does what the pass over the slots says |
| WaitSlots.QueueFirstOfType | zigbee_bridge/rt/rw61x/ZCB/SerialLink.c:559-606 | a message that is not a status goes to the first slot of its type and touches no other |
| WaitSlots.StatusRouting | zigbee_bridge/rt/rw61x/ZCB/SerialLink.c:559-606 | a status reply to command c goes to the first status slot waiting for c; exactly the status slots before it are released; nothing else changes; no message is reported exactly when no slot waits for c |
| WaitMachine.StepIsSafeExactlyWhen | zigbee_bridge/rt/rw61x/ZCB/SerialLink.c:258-317 | with every critical section of waiters and reader a step of its own, and for all types including status: a step keeps the invariant if and only if it is harmless |
| WaitMachine.RunIsSafeExactlyWhen | zigbee_bridge/rt/rw61x/ZCB/SerialLink.c:258-317 | the invariant holds at every moment of a run if and only if every step of it is harmless |
| WaitMachine.WaitSafety | zigbee_bridge/rt/rw61x/ZCB/SerialLink.c:258-317 | the promises, kept over all interleavings of harmless steps from boot: no two waiters share a slot, no waiting task stands in a free slot, a free slot has no event bit set, and a waiter that returns a message returns one of its own type, and for a status of its own command, put there after its claim |
| WaitMachine.HarmfulStepBreaksPromise | zigbee_bridge/rt/rw61x/ZCB/SerialLink.c:557-607 | after a harmful step at most four further steps of the reader and of the tasks concerned break one of these promises, so the condition is exact |
| WaitMachine.UndisturbedScan | zigbee_bridge/rt/rw61x/ZCB/SerialLink.c:264-316 | a claim with nothing in between takes the first free slot and changes no other |
| WaitMachine.RefusedOnlyWhenFull | zigbee_bridge/rt/rw61x/ZCB/SerialLink.c:264-316 | such a claim is refused exactly when all five slots are owned |
| WaitMachine.RefusedExactlyWhenEachTaken | zigbee_bridge/rt/rw61x/ZCB/SerialLink.c:264-316 | in any run, a claim is refused if and only if it found each of the five slots taken when it tested it |
| WaitMachine.UndisturbedDelivery | zigbee_bridge/rt/rw61x/ZCB/SerialLink.c:557-607 | a delivery with nothing in between does to slots and event bit what one pass of the loop does |
| WaitMachine.LateSignalLeavesStaleSlot | zigbee_bridge/rt/rw61x/ZCB/SerialLink.c:279-287 | a task that leaves its wait between copy and signal, or before the copy, leaves a free slot with its bit set |
| WaitMachine.TypeZeroLeavesStaleSlot | zigbee_bridge/rt/rw61x/ZCB/SerialLink.c:563-598 | a received message of type 0 is put into a free slot and signalled there |
| WaitMachine.StaleSlotMisleads | zigbee_bridge/rt/rw61x/ZCB/SerialLink.c:264-299 | the next claimer of such a slot wakes at once with a message from before its claim, or with its own status request |
| WaitMachine.LateDeliveryReplacesMessage | zigbee_bridge/rt/rw61x/ZCB/SerialLink.c:279-299 | a delivery after the release and before the fetch replaces the message the waiter returns |
| WaitMachine.WrongMessageIsFetched | zigbee_bridge/rt/rw61x/ZCB/SerialLink.c:565-591 | a second status reply can be copied over the first, since it is compared with the bytes of the first, and the waiter then returns a reply to another command |
| WaitMachine.StatusReplyFreesWaiter | zigbee_bridge/rt/rw61x/ZCB/SerialLink.c:570-580 | in every state of the machine, a status reply to another command frees the slot of a task that still waits, and the next task to test the slot shares it |
| WaitRuns.CalmRunIsSafe | zigbee_bridge/rt/rw61x/ZCB/SerialLink.c:258-317 | a schedule that is safe, for any number of tasks and every interleaving that keeps to it: copy and signal are not interrupted by a task leaving its wait, leaving and reading the message not by the tests of the reader nor by the claim of a status slot, nothing is of type 0, and an arriving status is the one asked for; then all promises are kept |
| WaitRuns.PlainRunIsSafe | zigbee_bridge/rt/rw61x/ZCB/SerialLink.c:258-317 | for types other than 0 and status: all interleavings are safe in which a wake or timeout with the release and read after it, and a copy with its signal, do not interrupt each other |
| WaitRuns.CalmWaitIsServed | zigbee_bridge/rt/rw61x/ZCB/SerialLink.c:258-317 | such a schedule brings a wait of any type to its end with the message sent |
| WaitRuns.TimeoutBeforeSignal | zigbee_bridge/rt/rw61x/ZCB/SerialLink.c:276-287 | from boot: a timeout between copy and signal leaves a free slot with its event bit set |
| WaitRuns.LateMessageIsReturned | zigbee_bridge/rt/rw61x/ZCB/SerialLink.c:264-299 | from boot: after that the next wait returns the message that came too late, or for a status its own request |
| WaitRuns.TypeZeroArrives | zigbee_bridge/rt/rw61x/ZCB/SerialLink.c:563-598 | from boot: a message of type 0 leaves a free slot with its event bit set |
| WaitRuns.NextWaiterIsMisled | zigbee_bridge/rt/rw61x/ZCB/SerialLink.c:264-299 | the next task to wait on slot 0 in such a state returns what was there before its wait, or for a status its own request |
| WaitRuns.MessageBeforeRelease | zigbee_bridge/rt/rw61x/ZCB/SerialLink.c:276-287 | from boot: a message between wake and release leaves a free slot with its event bit set |
| WaitRuns.OtherStatusSharesSlot | zigbee_bridge/rt/rw61x/ZCB/SerialLink.c:570-580 | from boot: a status for another command frees the slot of a waiting task, and the next task shares it |
| WaitRuns.WrongMessageIsReturned | zigbee_bridge/rt/rw61x/ZCB/SerialLink.c:285-299 | from boot: a task between release and read returns the message of another task |
| WaitRuns.RequestIsReturned | zigbee_bridge/rt/rw61x/ZCB/SerialLink.c:268-299 | from boot: or the request of another task that begins to wait for a status |
| WaitRuns.SwappedStatusIsReturned | zigbee_bridge/rt/rw61x/ZCB/SerialLink.c:565-591 | from boot: a second status, for the command with its bytes swapped, replaces the first and is returned |
| WaitRuns.RefusedBesideFreeSlot | zigbee_bridge/rt/rw61x/ZCB/SerialLink.c:264-316 | from boot: a sixth task is refused although the first slot was freed behind it |
| Listeners.Dispatcher.AddListener | zigbee_bridge/rt/rw61x/ZCB/SerialLink.c:428-463 | the linked list stays acyclic and its contents are the old contents with the new entry last; without memory nothing changes |
| Listeners.Dispatcher.FindEntry | zigbee_bridge/rt/rw61x/ZCB/SerialLink.c:656-658 | the search stops at the first entry registered for the type |
| Listeners.Dispatcher.Dispatch | zigbee_bridge/rt/rw61x/ZCB/SerialLink.c:647-684 | one call is queued for a wanted message if the bounded queue has room |
| Listeners.Dispatcher.ExecuteOne | zigbee_bridge/rt/rw61x/ZCB/SerialLink.c:696-707 | the oldest queued call is made and leaves the queue |
| Listeners.DispatchConservation | zigbee_bridge/rt/rw61x/ZCB/SerialLink.c:647-707 | over any run, calls made followed by calls waiting are the arrivals with a registered, non-excluded type, in order, minus those that met a full queue |
| Listeners.CallIsForFirstListener | zigbee_bridge/rt/rw61x/ZCB/SerialLink.c:656-669 | over any run each call made or waiting is for a message that arrived, with the callback that was registered for its type before the arrival and before any other for that type |
| Listeners.ArrivalIsQueuedExactlyWhen | zigbee_bridge/rt/rw61x/ZCB/SerialLink.c:630-684 | an arrival is queued, at the end, if and only if fewer than five calls wait, its type is not 0x8003, 0x8004 or 0x8005, and a listener is registered for it; otherwise nothing changes |
| Listeners.FirstRegistrationWins | zigbee_bridge/rt/rw61x/ZCB/SerialLink.c:656-680 | later registrations for a type never change which entry is chosen |
| EndpointSearch.EveryIdIsReached | bridge-app/nxp/rt/rw61x/main/src/BridgeMgr.cpp:371-374 | the cyclic distance to an id counts the steps of the wrapping increment |
| EndpointSearch.SearchEndsExactlyWhen | bridge-app/nxp/rt/rw61x/main/src/BridgeMgr.cpp:345-375 | the retry loop ends if and only if its start or some id at or above the first dynamic one is unused |
| EndpointSearch.Search | bridge-app/nxp/rt/rw61x/main/src/BridgeMgr.cpp:345-375 | the loop ends within the distance to any unused id and returns the first unused id in cyclic order |
| EndpointSearch.AllocatedIdIsUnused | bridge-app/nxp/rt/rw61x/main/src/BridgeMgr.cpp:345-375 | the id it returns was unused, and is dynamic when the fixed ids fill everything below |
| EndpointSearch.FoundGoingUp | bridge-app/nxp/rt/rw61x/main/src/BridgeMgr.cpp:345-380 | the id found is the first unused one going up from the start, from 0xFFFF and from below the first dynamic id on to the first dynamic id |
| Bridge.StartExceedsSaved | bridge-app/nxp/rt/rw61x/main/src/BridgeMgr.cpp:323-337 | the start lies above every saved endpoint unless the largest is 0xFFFF |
| BridgeJoins.AddedEndpointIsFirstUnused | bridge-app/nxp/rt/rw61x/main/src/BridgeMgr.cpp:309-380 | the device gets the first unused id going up from the current id without a file, and from behind the largest saved endpoint with one; it is reachable exactly if the SDK does not refuse that id |
| BridgeJoins.FirstDeviceGetsFirstId | bridge-app/nxp/rt/rw61x/main/src/BridgeMgr.cpp:153-157 | the first device of a bridge without a saved file gets the first dynamic id |
| BridgeJoins.AnnounceIsNoted | zigbee_bridge/rt/rw61x/ZCB/zcb.c:922-937 | an announce takes the first entry with neither type nor endpoint and nothing else, or changes nothing when there is none |
| BridgeJoins.DescriptorIsPosted | zigbee_bridge/rt/rw61x/ZCB/zcb.c:1380-1437 | a descriptor is posted with exactly the bits of the cluster ids it lists and retypes no node but the last announced one |
| BridgeJoins.PolledDescriptorAdds | bridge-app/nxp/rt/rw61x/main/src/BridgeMgr.cpp:115-150 | the next poll adds a colour light for 0x0300, else a dimmable light for 0x0008, else an On/Off light for 0x0006, else a temperature sensor for 0x0402, and else only empties the mailbox |
| BridgeJoins.PolledRestoreBuilds | bridge-app/nxp/rt/rw61x/main/src/BridgeMgr.cpp:424-483 | a restore message of type 1, 2 or 3 builds an On/Off, dimmable or colour light with the saved endpoint; other types build nothing |
| BridgeJoins.AddedNodeIsSaved | zigbee_bridge/rt/rw61x/ZCB/zcb.c:902-912 | the poll that gives the last announced node its endpoint writes its row to the file; otherwise neither nodes nor file change |
| BridgeJoins.JoinSurvivesRestart | zigbee_bridge/rt/rw61x/ZCB/zcb.c:830-856 | after a join and a restart the endpoint is routed to a node with the type and addresses of the one that joined |
| BridgeSystem.System.FirstTry | bridge-app/nxp/rt/rw61x/main/src/BridgeMgr.cpp:323-337 | the loop over the saved rows finds the id after the largest endpoint |
| BridgeSystem.System.AddDeviceEndpoint | bridge-app/nxp/rt/rw61x/main/src/BridgeMgr.cpp:309-381 | scan for a free device, retry loop and update of the joined node do what the adding function says; the index is returned exactly when there was room and the SDK accepted the id |
| BridgeSystem.System.RestoreNodeEndpoint | bridge-app/nxp/rt/rw61x/main/src/BridgeMgr.cpp:405-422 | a restored device takes the place of gIndex and its own saved endpoint |
| BridgeSystem.System.MonitorPoll | bridge-app/nxp/rt/rw61x/main/src/BridgeMgr.cpp:166-221 | one poll handles the one posted message and empties the mailbox |
| BridgeSystem.System.RestoreJoinedNodes | zigbee_bridge/rt/rw61x/ZCB/zcb.c:830-856 | the restore loop, polled once between its posts, does what the restoring function says |
| BridgeSystem.System.HandleDeviceAnnounce | zigbee_bridge/rt/rw61x/ZCB/zcb.c:913-937 | the first free joined node takes the address and MAC and becomes the one that later messages update |
| BridgeSystem.System.HandleSimpleDescriptor | zigbee_bridge/rt/rw61x/ZCB/zcb.c:1378-1439 | the filtered list sets bitmap and type code of the last announced node and posts the device |
| BridgeSystem.System.UpdateJoinedNodes | zigbee_bridge/rt/rw61x/ZCB/zcb.c:902-911 | an endpoint is recorded and saved only for a joined node that has a type and no endpoint yet |
| BridgeSystem.System.FindMatchedNodeByEP | zigbee_bridge/rt/rw61x/ZCB/zcb.c:1782-1798 | the scan finds what the lookup function finds |
| BridgeSystem.System.BridgedTarget | zigbee_bridge/rt/rw61x/ZCB/zcb.c:1800-1859 | a bridged command goes to the short address of the node found, or nowhere |
| Bridge.FindMatchedFinds | zigbee_bridge/rt/rw61x/ZCB/zcb.c:1782-1798 | the lookup returns the first node in use with the endpoint, or 0xFF exactly when there is none |
| Bridge.RestoreRebuilds | zigbee_bridge/rt/rw61x/ZCB/zcb.c:830-856 | every saved row of a known type is rebuilt exactly once, in order, with its own endpoint and kind, from gIndex on; the joined nodes become the saved rows; nothing else changes |
| Bridge.AllRowsAreRebuilt | bridge-app/nxp/rt/rw61x/main/src/BridgeMgr.cpp:424-475 | when all rows are of type 1 to 3 none is skipped |
| Bridge.RestoreRebuildsPolledRows | zigbee_bridge/rt/rw61x/ZCB/zcb.c:830-856 | under any order of posts and polls, exactly the rows of a known type that are polled before the next post are rebuilt, once each and in order |
| Bridge.RestoreWithoutPollLosesRow | zigbee_bridge/rt/rw61x/ZCB/zcb.c:737-754 | two posts without a poll between lose the first row: the one-slot mailbox is overwritten |
| BridgeRuns.StepKeeps | bridge-app/nxp/rt/rw61x/main/src/BridgeMgr.cpp:166-221 | every boot, announce, descriptor, post and poll keeps the invariant of the whole bridge |
| BridgeRuns.RoomForRow | zigbee_bridge/rt/rw61x/ZCB/zcb.c:884-891 | the saved table, which has no capacity check, still never overflows: a node without endpoint leaves room for its row |
| BridgeRuns.SomeIdIsFree | bridge-app/nxp/rt/rw61x/main/src/BridgeMgr.cpp:345-375 | sixteen devices cannot use up the ids, so the retry loop always ends |
| BridgeRuns.PollHasRoom | bridge-app/nxp/rt/rw61x/main/src/BridgeMgr.cpp:166-221 | in every reachable state a poll finds an unused id and room in the table |
| BridgeRuns.BootHoldsSavedRows | zigbee_bridge/rt/rw61x/ZCB/zcb.c:830-856 | after boot joined nodes, devices and used ids are exactly those of the saved file |
| BridgeRuns.RoutingOverRuns | zigbee_bridge/rt/rw61x/ZCB/zcb.c:1782-1859 | after a boot and any run without leaves, non-zero endpoints are pairwise distinct and in use, and the lookup of e returns the only node given e, or none exactly when none was |
| BridgeRuns.GivenEndpointStays | zigbee_bridge/rt/rw61x/ZCB/zcb.c:902-937 | over any run without a restart, a node that was given an endpoint keeps endpoint, short address and MAC, and the lookup of the endpoint keeps finding it |
| BridgeRuns.RoutingSurvivesRestart | zigbee_bridge/rt/rw61x/ZCB/zcb.c:830-856 | after a restart every saved endpoint is routed to the node it was saved for |
| BridgeRouting.AddedEndpointIsRoutedExactlyWhen | zigbee_bridge/rt/rw61x/ZCB/zcb.c:902-911 | the lookup of an added endpoint finds the last announced node if it has a type and no endpoint, and nothing otherwise |
| BridgeRouting.PolledEndpointReaches | bridge-app/nxp/rt/rw61x/main/src/BridgeMgr.cpp:166-221 | a poll routes the endpoint it adds to a given node if and only if that is the last announced one, joined and without endpoint |
| BridgeRouting.DescriberIsRoutedExactlyWhen | bridge-app/nxp/rt/rw61x/main/src/BridgeMgr.cpp:309-381 | over every run: the added device is of the kind of the descriptor behind it, and its endpoint is routed to the sender of that descriptor if and only if the sender is still the last announced node, joined and without endpoint |
| BridgeRouting.DescriptorReachesItsNodeExactlyWhen | zigbee_bridge/rt/rw61x/ZCB/zcb.c:1391-1439 | polled at once, a descriptor gives endpoint and type code to its sender if and only if that is the last announced node, without endpoint, and the code is not zero |
| BridgeRouting.OrderlyJoinIsRouted | zigbee_bridge/rt/rw61x/ZCB/zcb.c:902-937 | in every run, however its other joins went: when a descriptor comes from the last announced node and is polled before the next event, then until the next restart the endpoint added is routed to that node, under its addresses, if and only if the node had a type and no endpoint then |
| BridgeRouting.InterleavedJoinsMisroute | zigbee_bridge/rt/rw61x/ZCB/zcb.c:1403-1409 | when two nodes join before the first is described, the descriptor of the first gives its type and the endpoint to the second |
| SavedNodes.SavedTable.StoreJoinedNode | zigbee_bridge/rt/rw61x/ZCB/zcb.c:858-900 | the loops over the file and the table do what the storing function says |
| SavedNodes.SavedTable.ReadFromFlash | zigbee_bridge/rt/rw61x/ZCB/zcb.c:865 | a read either replaces the RAM copy by the file or leaves it |
| SavedNodes.SavedTable.SaveToFlash | zigbee_bridge/rt/rw61x/ZCB/zcb.c:878-895 | the file becomes the RAM copy |
| SavedNodes.SavedTable.FindRow | zigbee_bridge/rt/rw61x/ZCB/zcb.c:869-873 | the scan finds the first row with the MAC |
| SavedNodes.UpsertIsMapUpdate | zigbee_bridge/rt/rw61x/ZCB/zcb.c:869-891 | seen as a map from MAC to node, the upsert is a map update |
| SavedNodes.StoreIsMapUpdate | zigbee_bridge/rt/rw61x/ZCB/zcb.c:858-900 | storing a node of a known type updates the map, keeps MACs unique, leaves other rows in place and writes the file |
| SavedNodes.EmptyNodeIsNotAdded | zigbee_bridge/rt/rw61x/ZCB/zcb.c:858-900 | an empty node is written only over a saved row of its address and never adds a row |
| SavedNodes.StoreKeepsEndpointsUnique | zigbee_bridge/rt/rw61x/ZCB/zcb.c:858-900 | a fresh endpoint keeps the endpoints of the rows distinct |
| SavedNodes.UnreadableFileMayDuplicate | zigbee_bridge/rt/rw61x/ZCB/zcb.c:865-891 | without a readable file MACs stay unique if and only if the MAC was not in the RAM copy |
| DeviceKinds.FilterClusters | zigbee_bridge/rt/rw61x/ZCB/zcb.c:1378-1390 | the first loop writes the filtered list and leaves the entries behind it |
| DeviceKinds.ScanClusters | zigbee_bridge/rt/rw61x/ZCB/zcb.c:1391-1426 | the second loop computes the bitmap and the type code |
| DeviceKinds.FilterIsSubsequence | zigbee_bridge/rt/rw61x/ZCB/zcb.c:1380-1389 | the filtered list is the order-preserving subsequence without the five skipped ids |
| BridgeJoins.FilterDrops | zigbee_bridge/rt/rw61x/ZCB/zcb.c:1380-1389 | exactly the ids 0x0003, 0x0004, 0x0005, 0x1000 and 0xFFFF are dropped |
| DeviceKinds.BitmapMeansMember | zigbee_bridge/rt/rw61x/ZCB/zcb.c:1391-1426 | each bit is set exactly when its cluster is in the list |
| DeviceKinds.TypeMeansLast | zigbee_bridge/rt/rw61x/ZCB/zcb.c:1403-1409 | the type code tells only the later of level and colour control |
| DeviceKinds.KindsAgreeExactlyWhen | bridge-app/nxp/rt/rw61x/main/src/BridgeMgr.cpp:119-152 | the device built now and the one rebuilt after a restart are of the same kind if and only if the stated condition on the list holds: not for temperature sensors, not for level after colour |
| DeviceKinds.LightsAgree | bridge-app/nxp/rt/rw61x/main/src/BridgeMgr.cpp:424-475 | for lights with clusters in ascending order they always agree |
| CommissioningRuns.RunKeeps | zigbee_bridge/rt/rw61x/ZCB/zcb.c:913-946 | every run of announces and responses keeps the invariant of device and attribute tables |
| CommissioningRuns.ActiveInOrder | zigbee_bridge/rt/rw61x/ZCB/ZigbeeDevices.c:356-694 | an active device has answered, in this order, with its endpoints, with a descriptor of its first endpoint and with its model id |
| CommissioningRuns.ActiveStays | zigbee_bridge/rt/rw61x/ZCB/zcb.c:1337-1348 | once active, no commissioning response or announce changes anything in the record of the device |
| CommissioningRuns.AddressesStayUnique | zigbee_bridge/rt/rw61x/ZCB/zcb.c:940-945 | over any run no two entries of the device table have the same IEEE address |
| CommissioningRuns.DescriptorAsksForModelId | zigbee_bridge/rt/rw61x/ZCB/zcb.c:1427-1437 | a descriptor of the first endpoint makes the bridge expect the model id exactly when it lists the Basic cluster |
| CommissioningRuns.AnswersBringActive | zigbee_bridge/rt/rw61x/ZCB/ZigbeeDevices.c:356-694 | the three answers make a device active if and only if the descriptor listed the Basic cluster or its row was there before |
| CommissioningRuns.ModelIdActivates | zigbee_bridge/rt/rw61x/ZCB/zcb.c:1548-1554 | a model id response makes the device active exactly when its attribute row was added |
| CommissioningRuns.QualifiedEffect | zigbee_bridge/rt/rw61x/ZCB/ZigbeeDevices.c:356-694 | the qualify process changes state and tables of its own device only, and adds model id rows only while reading attributes |
| CommissionedDevices.AnnounceIsTaken | zigbee_bridge/rt/rw61x/ZCB/ZigbeeDevices.c:143-166 | an announce is taken if and only if its ids are valid, no device has the address and a place is free; the device is new, with one endpoint to ask for when its endpoint request stays unanswered |
| CommissionedDevices.ListIsTaken | zigbee_bridge/rt/rw61x/ZCB/zcb.c:1336-1346 | an endpoint list gives the first endpoints their ids and changes nothing else but the state and the index |
| CommissionedDevices.DescriptorIsTaken | zigbee_bridge/rt/rw61x/ZCB/zcb.c:1374-1437 | a descriptor sets type, count and filtered clusters of its endpoint, leaves the others, and moves the device on by whether it is the first |
| CommissionedDevices.IdleResponseChangesNothing | zigbee_bridge/rt/rw61x/ZCB/zcb.c:1463-1554 | responses of unknown nodes and active devices, and values other than an expected model id, change nothing |
| CommissionedDevices.BasicIsAskedFor | zigbee_bridge/rt/rw61x/ZCB/ZigbeeDevices.c:437-505 | the read state adds the model id row for each listed Basic cluster and no other row |
| WatchedAttributes.BoundClusterIsWatched | zigbee_bridge/rt/rw61x/ZCB/ZigbeeDevices.c:507-671 | the bind state adds, behind the rows that are there: id 0 for On/Off, level, temperature, humidity, illuminance and occupancy; for colour control 7 with device type 0x010C, 7, 3, 4 with 0x010D, nothing otherwise |
| WatchedAttributes.OtherListsStay | zigbee_bridge/rt/rw61x/ZCB/ZigbeeDevices.c:507-671 | the list of every other key stays, and the device is active |
| WatchedAttributes.RowsStayPacked | zigbee_bridge/rt/rw61x/ZCB/ZigbeeDevices.c:170-198 | over every run the used rows stand before the free ones |
| CommissionedDevices.AnsweredClusterIsWatched | zigbee_bridge/rt/rw61x/ZCB/ZigbeeDevices.c:356-694 | a device that answers with its endpoints, a first descriptor with the Basic cluster and its model id is active, and each described cluster is watched by exactly the ids of its kind |
| CommissionedDevices.AnnouncedDeviceIsWatched | zigbee_bridge/rt/rw61x/ZCB/ZigbeeDevices.c:356-694 | the same from the announce of an unknown device |
| DeviceTables.Tables.constructor | zigbee_bridge/rt/rw61x/ZCB/ZigbeeDevices.c:340-352 | cleared tables, counters right |
| DeviceTables.Tables.FindDeviceByNodeId | zigbee_bridge/rt/rw61x/ZCB/ZigbeeDevices.c:107-121 | the first entry with a valid node id, or none |
| DeviceTables.Tables.FindDeviceByIeeeAddress | zigbee_bridge/rt/rw61x/ZCB/ZigbeeDevices.c:125-139 | the first entry with a non-zero address, or none |
| DeviceTables.Tables.AddNewDevice | zigbee_bridge/rt/rw61x/ZCB/ZigbeeDevices.c:143-166 | the first free entry is cleared and filled; invalid ids and a full table change nothing |
| DeviceTables.Tables.FindClusterEntry | zigbee_bridge/rt/rw61x/ZCB/ZigbeeDevices.c:202-229 | the nested lookups find the first device, endpoint and cluster with the ids, or no cluster |
| DeviceTables.Tables.AddNewAttribute | zigbee_bridge/rt/rw61x/ZCB/ZigbeeDevices.c:170-198 | the first free row is filled and the counter of its cluster goes up, so that the counters are right afterwards exactly when they were before |
| DeviceTables.Tables.FindAttributeList | zigbee_bridge/rt/rw61x/ZCB/ZigbeeDevices.c:272-300 | exactly the attribute ids of the key in table order are returned, with their number; right counters are left as they are |
| DeviceTables.CountStep | zigbee_bridge/rt/rw61x/ZCB/ZigbeeDevices.c:184-193 | with one more row and one more on its counter, in eight bits, every counter is right exactly when it was before |
| DeviceTables.Tables.NewDeviceQualifyProcess | zigbee_bridge/rt/rw61x/ZCB/ZigbeeDevices.c:356-694 | the state loop ends for every pattern of failed sends and missing replies and does what the qualify function says; its descriptor requests are those of the index, after two unanswered requests for endpoints too; counters are right afterwards exactly when they were before |
| DeviceTables.Tables.AskForEndpoints | zigbee_bridge/rt/rw61x/ZCB/ZigbeeDevices.c:376-405 | one request if it is answered, two if not; answered exactly when one of them was sent and replied to |
| DeviceTables.Tables.AskForDescriptor | zigbee_bridge/rt/rw61x/ZCB/ZigbeeDevices.c:409-435 | for any endpoint index: the requests are for endpoint 1, none if the endpoint at the index is unset or Green Power, one if it is answered and two if not; the index moves on by one |
| DeviceTables.Tables.ReadCluster | zigbee_bridge/rt/rw61x/ZCB/ZigbeeDevices.c:443-500 | a Basic cluster adds the model id row and asks once, and again without an answer; others add and ask nothing |
| DeviceTables.Tables.BindOne | zigbee_bridge/rt/rw61x/ZCB/ZigbeeDevices.c:513-663 | the switch adds the rows of the cluster, three for an extended colour light |
| DeviceTables.Tables.ReadAttributes | zigbee_bridge/rt/rw61x/ZCB/ZigbeeDevices.c:437-505 | the loops over endpoints and clusters add exactly the rows that the function adds |
| DeviceTables.Tables.BindClusters | zigbee_bridge/rt/rw61x/ZCB/ZigbeeDevices.c:507-671 | the same for the bind state, with the rows of each cluster id and colour device type |
| DeviceTables.Tables.HandleDeviceAnnounce | zigbee_bridge/rt/rw61x/ZCB/zcb.c:940-945 | an unknown address is added and qualified; counters stay right, and a node without rows is blank |
| DeviceTables.Tables.HandleActiveEndPointResp | zigbee_bridge/rt/rw61x/ZCB/zcb.c:1327-1348 | the endpoint list is written over the ids of a device that is not active; right counters stay right exactly when they are for the entries that get a new place, and always for a blank device, which stays blank |
| DeviceTables.Tables.HandleSimpleDescriptorResponse | zigbee_bridge/rt/rw61x/ZCB/zcb.c:1374-1437 | the endpoint takes device type and filtered clusters and the device moves on; right counters stay right exactly when they are for the clusters that get a new place, and always for a blank device |
| DeviceTables.Tables.CountsStayExactlyWhen | zigbee_bridge/rt/rw61x/ZCB/zcb.c:1374-1437 | with a new record of a device, right counters stay right if and only if they are at the new places |
| DeviceTables.DescriptorMoves | zigbee_bridge/rt/rw61x/ZCB/zcb.c:1393-1425 | a descriptor gives a new place to exactly the clusters that it lists first where they did not stand first before |
| DeviceTables.ListMoves | zigbee_bridge/rt/rw61x/ZCB/zcb.c:1336-1344 | a list of endpoints gives a new place to exactly the entries of the ids that it lists first where they did not stand first before |
| DeviceTables.MovedBasicIsMiscounted | zigbee_bridge/rt/rw61x/ZCB/zcb.c:1393-1425 | a later descriptor with another cluster where Basic stood makes the counter there wrong |
| DeviceTables.Tables.FindAttributeEntry | zigbee_bridge/rt/rw61x/ZCB/ZigbeeDevices.c:243-268 | a row is found exactly when the ids are valid and the table holds it |
| DeviceTables.Tables.HandleReadAttrResp | zigbee_bridge/rt/rw61x/ZCB/zcb.c:1463-1554 | an expected model id response activates the device and keeps counters right |
| AttributeTable.RowAddedLists | zigbee_bridge/rt/rw61x/ZCB/ZigbeeDevices.c:184-197 | a new row appears in the list of its key at its place in the table, and in no other list |
| AttributeTable.RowAddedCounts | zigbee_bridge/rt/rw61x/ZCB/ZigbeeDevices.c:184-193 | the list of its key grows by one, every other keeps its length |
| AttributeTable.AddedFillInOrder | zigbee_bridge/rt/rw61x/ZCB/ZigbeeDevices.c:170-198 | over any run of adds the table is the first valid adds that fit, in order, then free rows |
| AttributeTable.ListIsAddOrder | zigbee_bridge/rt/rw61x/ZCB/ZigbeeDevices.c:285-294 | the listed ids of a key are its adds, in the order they were made |
| LineEditor.WordIsInserted | zigbee_bridge/rt/rw61x/ZCB/shell.c:333-354 | any word of plain keys goes into the text at the cursor, in order, and the cursor behind it |
| LineEditor.WordIsErased | zigbee_bridge/rt/rw61x/ZCB/shell.c:242-272 | as many backspaces or deletes give the editor back as it was |
| LineEditor.EnterSubmits | zigbee_bridge/rt/rw61x/ZCB/shell.c:284-330 | the end of a line submits the text, clears the line, and the up key then brings back a remembered line |
| EditorRuns.LeftsMove | zigbee_bridge/rt/rw61x/ZCB/shell.c:200-203 | each left moves the cursor back by one, to the start at most, and leaves the text |
| EditorRuns.RightsMove | zigbee_bridge/rt/rw61x/ZCB/shell.c:204-208 | each right moves it on by one, to the end at most |
| EditorRuns.RightsUndoLefts | zigbee_bridge/rt/rw61x/ZCB/shell.c:200-208 | as many rights as lefts bring the editor back |
| EditorRuns.WordAfterLefts | zigbee_bridge/rt/rw61x/ZCB/shell.c:200-354 | a word typed after k lefts from the end is submitted k bytes before the end of the line |
| EditorRuns.UpsRecall | zigbee_bridge/rt/rw61x/ZCB/shell.c:184-191 | the k-th up brings the k-th newest line, and the oldest from then on |
| EditorRuns.DownsRecall | zigbee_bridge/rt/rw61x/ZCB/shell.c:192-199 | a down brings the line at the history position and then moves to a newer one |
| EditorRuns.DownAfterUps | zigbee_bridge/rt/rw61x/ZCB/shell.c:184-199 | so the first down after the k-th up brings a line one older, unless that was the oldest |
| EditorRuns.LineIsRemembered | zigbee_bridge/rt/rw61x/ZCB/shell.c:303-328 | a submitted line that is taken goes in front of the two newest of the history; line, cursor and history position start anew |
| EditorRuns.SubmittedIsRecalled | zigbee_bridge/rt/rw61x/ZCB/shell.c:184-328 | after that the k-th up finds the line and the earlier ones in order |
| EditorRuns.NothingToRecall | zigbee_bridge/rt/rw61x/ZCB/shell.c:433-446 | without history the arrows leave the text |
| EditorRuns.LineEndings | zigbee_bridge/rt/rw61x/ZCB/shell.c:284-330 | once a line was ended by CR or LF the other is ignored; an empty line is not submitted |
| EditorRuns.NothingToErase | zigbee_bridge/rt/rw61x/ZCB/shell.c:242-246 | at the start of the line backspace and delete do nothing |
| EditorRuns.LoneEscape | zigbee_bridge/rt/rw61x/ZCB/shell.c:164-182 | an escape that no bracket follows is dropped and the next key typed |
| EditorRuns.UnknownSequence | zigbee_bridge/rt/rw61x/ZCB/shell.c:157-217 | a sequence for no arrow key is dropped whole, and a byte 0xFF is ignored |
| LineEditor.LineIsSubmitted | zigbee_bridge/rt/rw61x/ZCB/shell.c:151-355 | a typed line is submitted exactly as typed |
| LineEditor.RememberedAsMeantExactlyWhen | zigbee_bridge/rt/rw61x/ZCB/shell.c:305-322 | a line is left out exactly when, at the first byte in which it differs from the last line, its byte is greater by the length of the line; an equal line is always taken again; so the history does as its comment says exactly for the other lines that differ |
| LineEditor.CompareIsFirstDifference | zigbee_bridge/rt/rw61x/ZCB/shell.c:547-557 | the comparison returns the difference of the first bytes that differ |
| LineEditor.HistoryMistakes | zigbee_bridge/rt/rw61x/ZCB/shell.c:305-307 | after "a", the line "b" is not remembered and "a" is remembered again |
| Shell.StrLen | zigbee_bridge/rt/rw61x/ZCB/shell.c:535-545 | the length is the position of the first NUL |
| Shell.StrCopy | zigbee_bridge/rt/rw61x/ZCB/shell.c:522-533 | copies the prefix and leaves the rest |
| Shell.StrCompare | zigbee_bridge/rt/rw61x/ZCB/shell.c:547-557 | returns the difference at the first mismatch, 0 if there is none |
| Shell.Context.HandleKey | zigbee_bridge/rt/rw61x/ZCB/shell.c:157-354 | one pass of the loop: buffer, positions, escape state, history and submitted line are those of the sequence editor; the buffer is the text followed by zeros |
| Shell.Context.Insert | zigbee_bridge/rt/rw61x/ZCB/shell.c:334-354 | the shift by memmove inserts the byte at the cursor |
| Shell.Context.Backspace | zigbee_bridge/rt/rw61x/ZCB/shell.c:242-272 | the shift back removes the byte before the cursor |
| Shell.Context.GetHistoryCommand | zigbee_bridge/rt/rw61x/ZCB/shell.c:433-462 | the line becomes the chosen line of the history |
| Shell.Context.FunctionKey | zigbee_bridge/rt/rw61x/ZCB/shell.c:183-217 | the four arrow keys move cursor and history position as in the sequence editor |
| Shell.Context.Submit | zigbee_bridge/rt/rw61x/ZCB/shell.c:303-328 | the line is handed over, remembered and cleared |
| Shell.Context.EndOfLine | zigbee_bridge/rt/rw61x/ZCB/shell.c:284-330 | submission, history and reset of the line |
| Shell.Context.PushHistory | zigbee_bridge/rt/rw61x/ZCB/shell.c:309-321 | the lines move down by one and the new one stands first |
| HexAddress.AddrValid | zigbee_bridge/rt/rw61x/ZCB/zigbee_cmd.c:849-864 | true exactly for a null pointer or, after an optional 0x, at most base hex digits and nothing else |
| HexAddress.SimpleStrtoul | zigbee_bridge/rt/rw61x/ZCB/zigbee_cmd.c:883-909 | the value of the longest run of digits of the base, modulo 2^64, and where it ends, for every base and prefix |
| HexAddress.ValidAddressIsExact | zigbee_bridge/rt/rw61x/ZCB/zigbee_cmd.c:883-909 | a valid address of k <= 16 digits is converted to its end, exactly, to a value below 16^k |
| HexAddress.AddressRoundTrip | zigbee_bridge/rt/rw61x/ZCB/zigbee_cmd.c:883-909 | every 64-bit number written in hex is valid and converted back to itself |
| HexAddress.PrefixChoosesBase | zigbee_bridge/rt/rw61x/ZCB/zigbee_cmd.c:883-909 | with base 0 the prefix 0x or 0X chooses hex, another leading 0 octal, else decimal, and with base 16 the prefix may be left out: each way every number below 2^64 is converted back |
| HexAddress.CaseDoesNotMatter | zigbee_bridge/rt/rw61x/ZCB/zigbee_cmd.c:883-909 | upper and lower case letters are the same digits |
| HexAddress.DigitsRoundTrip | zigbee_bridge/rt/rw61x/ZCB/zigbee_cmd.c:901-905 | writing a number in any base and reading it by place values gives it back |
| HexAddress.IsAEndpoint | zigbee_bridge/rt/rw61x/ZCB/zigbee_cmd.c:866-881 | true exactly when all are decimal digits and their value modulo 2^64 is 1 to 240; of a digit string the answer is right if and only if its number is below 2^64 or leaves 0 or more than 240 there |
| HexAddress.EndpointCheckIsRight | zigbee_bridge/rt/rw61x/ZCB/zigbee_cmd.c:866-881 | up to 19 digits that is the range 1 to 240 |
| HexAddress.EndpointCheckWraps | zigbee_bridge/rt/rw61x/ZCB/zigbee_cmd.c:876 | 2^64 + 1 is taken for endpoint 1 |
| Payloads.ReadRequestLengthIsExact | zigbee_bridge/rt/rw61x/ZCB/cmd.c:365-366 | the wrapped unsigned sum is exactly 12 + 2 * count |
| Payloads.BlockLengthIsExact | zigbee_bridge/rt/rw61x/ZCB/cmd.c:680 | the wrapped unsigned sum is exactly 20 + size |
| Payloads.ReadAttributeRequest | zigbee_bridge/rt/rw61x/ZCB/cmd.c:328-375 | the payload holds the twelve header bytes and, big-endian, the first ten ids at most, so that a receiver reads them back in order |
| Payloads.WordsRoundTrip | zigbee_bridge/rt/rw61x/ZCB/cmd.c:357-360 | reading the big-endian ids back gives the ids |
| Payloads.OtaImageBlock | zigbee_bridge/rt/rw61x/ZCB/cmd.c:646-706 | more than 64 bytes are refused, otherwise a receiver reads back every field, the size and the data |
| Payloads.HeadRoundTrip | zigbee_bridge/rt/rw61x/ZCB/cmd.c:683-693 | the twenty header bytes of a block hold every field where a receiver reads it |
| Payloads.OtaLoadNewImage | zigbee_bridge/rt/rw61x/ZCB/cmd.c:528-642 | the pointer walk takes every header field of the file, numbers byte-swapped, into a 72-byte payload; a null image and a wrong file id are refused |
| Payloads.MirroredTwice | zigbee_bridge/rt/rw61x/ZCB/cmd.c:563-631 | swapping the sent header again gives the header of the file: no field is lost, moved or mixed |
| Payloads.HeaderFieldsAreSwapped | zigbee_bridge/rt/rw61x/ZCB/cmd.c:535-631 | each number of the header is sent with its bytes reversed at its own place, the name and the security byte as they are |
| Payloads.PayloadsAreSentWhole | zigbee_bridge/rt/rw61x/ZCB/cmd.c:33-857 | every sender of cmd.c and zcb.c passes at most 84 bytes, by the fields of its structure or its length computation, so every payload leaves in one whole frame |

## Left out

- SerialPort.CalculateCRC: payloads of 256 bytes or more, for which the loops of SerialLink.c:491 and 521 never end because their counter has 8 bits; the methods require fewer.
- WaitMachine.WaitSafety: is about the wait itself; what `eSL_SendMessage` does before and after its wait for a status is not part of this model, nor are task priorities, which may rule out some of the interleavings.
- WaitMachine.Next: the step `Fetch` reads length and pointer of the message at once; SerialLink.c:291-297 reads them one after the other outside any critical section, so a task could also return the length of one message with the bytes of another.
- BridgeRuns.RoutingOverRuns: runs contain no leave; the fixed endpoints fill all ids below the first dynamic one; flash reads succeed once a file was written; each handler is one step.
- BridgeSystem.System.MonitorPoll: leaves out the branches for removal and factory reset (BridgeMgr.cpp:185-197), whose messages nothing in the repository posts, and the effect of an attribute write on Matter attributes, which are not part of this state; the manager is an ordinary object, although BridgeMgr.cpp:229-234 passes a null context to the task.
- CommissioningRuns.ActiveInOrder: runs of responses that meet the conditions the handlers do not check: a descriptor comes from a known device and names one of its endpoints, an expected read response comes from a known device, a response lists at most 5 endpoints and 15 clusters (the sizes of the message structures). Outside them the C code follows a null pointer or leaves an array.
- BridgeSystem.System.AddDeviceEndpoint: requires an unused dynamic id and room in the saved table, which `BridgeRuns.PollHasRoom` proves of every reachable state; a device that is already reachable, for which the C++ code returns at once, is never passed to it.
- DeviceTables.Tables.NewDeviceQualifyProcess: while it adds rows, the node id must lead back to the device and its listed endpoint ids must differ; otherwise the cluster lookup of the C code can end in a null pointer. What is read from the endpoint list outside its bounds is a parameter.
- DeviceTables.Tables.FindClusterEntry: the device and the endpoint must be there, since the C code follows the device pointer without a check and searches 15 endpoints in an array of 5 (ZigbeeDevices.c:209-214).
- DeviceTables.Tables.FindAttributeList: fewer than 256 rows of the key and a large enough list; beyond that the C code writes over the list.
- LineEditor.Pressed: no NUL keys, no tab outside an escape sequence, and no key but the accepted line ending into a line of 63 characters, for which the C code resets the length and keeps the buffer.
- Shell.Context.HandleKey: the same keys are left out.
- HexAddress.AddrValid: strings shorter than 2^32 characters.
- UART, interrupts, GPIO, FreeRTOS primitives and the Matter SDK behind the abstractions named above; failing flash writes; failing allocations other than in AddListener.
- `SaveJoinedNodes` (zcb.c:756-828), which can mark a node new several times, and the removal of rows when a device leaves (zcb.c:967-993), which uses an unset index.
- Erasing attributes (ZigbeeDevices.c:304-315), which clears with the size of the whole table.
- The network and IEEE address responses (zcb.c:1591-1637), which rewrite keys of the device table without checks.
- Values of attributes, attribute reports and their mailbox payload, device timers and offline detection.
- Auto-completion, command parsing and the command handler task of the shell.
- Read and write callbacks of Matter attributes, ZCL command switches, Actions, bindings, and the fields that the remaining senders of cmd.c and zcb.c copy into small structures (their lengths are in `Payloads.PayloadLength`).
