# libexositecoap, verified

A Dafny model of the two components of libexositecoap that carry its logic, with
proofs about every input and every run. `dafny verify dfyconfig.toml` checks it.

**The in-place CoAP codec** (`picocoap/src/coap.c`, `coap.h`). A packet is a byte
array and a length, nothing else. `CoapFormat` defines messages, their encoding
(sections 3 and 3.1 of RFC 7252) and an independent, bounds-checked parser, and
proves the two inverse to each other. `CoapPdu.Pdu` is the C code: the same scan
loops, the same overlapping moves, the same order of checks. What a packet means is
what its bytes parse to, and each setter is proved to be the corresponding change of
that meaning; each getter reads it back.

**The operation engine** (`src/exosite.c`). `EngineModel` is the engine as a state
machine over an array of operations. Its steps are a user call, the activation
check, one received message, and one operation's turn; the clock, failing sends and
random numbers are part of the step. `EngineHistory` and `EngineRuns` prove what
every run keeps, `EngineTheorems` what follows. What the machine does is stated once more
without its own functions, by the packets in the log, the fields of the message and plain
numbers: which operation a message is for and what it does to it (`EngineReception`), what
makes the device good and when it activates (`EngineDevice`), what each turn sends, and
that it is what the user queued (`EngineRequests`), with every request spelled out byte by
byte (`RequestMeaning`). `EngineProgress` has what holds from a fresh queueing on, when a request is given up and which messages are answered, and
`EngineWitnesses` three runs in which something goes wrong. `Engine.Exosite` is the C code, with its file-level variables
as fields. Every method is proved to be a run of the machine, down to the bytes that
are built (`Requests`, `RequestBuilder`) and read (`EngineReads`); and what it hands to
the network is proved to be, datagram by datagram and in order, what the run logs
(`EngineLog.Transmitted`).

Shifts and masks are written as division, multiplication and remainder by powers of
two; 16-bit and 32-bit wrap-around is written out. Memory behind pointers is a byte
sequence, a null pointer the empty one.

## What the code does differently from what it says

The model follows the code. Where the code falls short of its comments or of the
standard, the model states exactly when it does not.

- Setting a payload is right if and only if either the packet had none and the new
  one is not empty, or it had one and the new one is empty
  (`MessageEdits.PayloadSetMeaning`): a second payload overwrites the first one's
  marker, and an empty one leaves a lone marker. So a write of an empty value sends
  a packet that is not a CoAP message (`Requests.RequestExact`).
- Packet validation looks only at the fixed header and at one byte behind the token
  (`CoapPdu.Pdu.ValidatePkt` states this byte for byte); its test for a marker
  without payload never fires. It accepts malformed packets
  (`OptionLookup.AcceptsMalformed`).
- A freshly initialised packet is an empty RST, not the ping that `coap.h` announces.
- Adding an option in front of others counts the deltas of all of them from the new
  option's number, which is right for the first of them only. Where no header changes
  its length and a payload follows, the result is the sorted insertion if and only if
  at most one option comes behind (`PduEdits.InsertedExact`).
- The token length of a request is never stored, so every retransmission is sent
  without a token; it would be identical to the original if and only if the stored
  length were 2 (`Requests.RetransmitAgrees`). It is also built anew with the key the
  device has by then. Apart from the token it is the packet first sent, in bytes and in
  meaning, if and only if it is an activation, the key is the same, or the alias (523
  to 564 bytes) left no room for the key (`EngineTheorems.RetransmissionExact`); for
  every freshly initialised device and every other key there is a run in which it is
  not (`EngineWitnesses.RetransmittedWithNewKey`).
- Looking up the Observe option in a message whose options are all numbered 1 to 5 and
  that has a payload gives a null pointer with a huge length, and the engine reads
  through it: a notification with an entity tag, or the response to a subscription
  with one, ends the call in a fault. `EngineReads.ObserveFault` gives the exact
  condition, `EngineReads.EntityTagFaults` the input, and `EngineWitnesses.FaultReached`
  a run for every device that leads to a state in which it faults. A run of the machine contains no
  such step, so statements about runs speak of executions up to a fault;
  `Engine.Exosite.Operate` reports one exactly when the datagram it has come to causes
  it.
- A notification or response without options has its payload folded as if it were the
  Observe value, because the lookup then returns the payload. With more than four bytes
  the shift is undefined. Where the theorems speak of the Observe value they mean the
  bytes that are folded (`EngineModel.ObserveBytes`).
- An acknowledgement becomes owed exactly for a notification that is matched, has code
  2.05 and a payload that is not empty and fits, whether it is confirmable or not. So a
  confirmable notification that is matched with an empty payload, with too long a one, or
  with another code gets neither acknowledgement nor reset; and a non-confirmable one
  that is taken over is acknowledged, against section 4.3 of RFC 7252
  (`EngineProgress.AnswersExact`).
- Iterating over options stops at an option numbered 0, so a packet is read back
  completely if and only if it does not start with one (`WholePacket.RoundTrip`).
  Looking up occurrence 255 never succeeds because the counter has 8 bits.
- The response to a renewed subscription folds the Observe value onto the old sequence
  number. `ObserveSeq.FoldOntoOld` and `ObserveSeq.AbsorbsExact` say which old and new
  bytes give the right number, `EngineTheorems.RenewalFreshness` that exactly then later
  notifications are told apart correctly, `EngineProgress.Freshness` that they are as long
  as every response value absorbs the one before, and `EngineWitnesses.UpdateLost` is a run in
  which a new value is not reported.
- Retry counts are not reset when an operation is queued again; `EngineTheorems.TimeoutBound`
  is relative to the count an operation starts from, and `EngineProgress.FreshTimeout`
  states it for operations that were initialised before they were queued.
- A platform that reports that no key was ever saved initialises the device all the
  same (`Engine.Exosite.Init`); only a fatal error does not.

## Model

| member | source | states |
|---|---|---|
| CoapFormat.ParseOfEncode | picocoap/src/coap.c:153-244 | every valid message is recovered from its section 3 RFC 7252 encoding by the independent parser |
| CoapFormat.EncodeOfParse | picocoap/src/coap.c:153-244 | every byte string that parses is the encoding of exactly the message it parses to, so well-formedness and encoding agree in both directions |
| CoapFormat.EncodeInjective | picocoap/src/coap.c:251-458 | two messages share an encoding only if they are equal |
| OptionCodec.DecodeOfHeader | picocoap/src/coap.c:153-210 | for every delta and length below 65536 and any following bytes, decoding a built option header returns that delta and length and the position of the value |
| CoapFormat.OptionHeaderFirst | picocoap/src/coap.c:164-172 | the first byte of an option header carries the two nibbles and is never the payload marker |
| OptionCodec.ScanStep | picocoap/src/coap.c:153-210 | run at option k of any buffer that starts with a message's encoding, the decoder reports exactly option k, or how the options end |
| OptionCodec.HeaderLen | picocoap/src/coap.c:564-584 | the computed length is that of the encoded header |
| CoapPdu.BuildExtension | picocoap/src/coap.c:522-554 | writes exactly the extension bytes of a field if they fit and nothing otherwise |
| CoapPdu.BuildOptionHeader | picocoap/src/coap.c:513-562 | writes exactly the encoded header, and reports success exactly when it fits; on failure the bytes outside its window and the first byte stay as they were |
| CoapPdu.Pdu.GetToken | picocoap/src/coap.c:56-72 | the token as a little-endian integer, 0 if the packet is too short |
| CoapPdu.Pdu.SetVersion | picocoap/src/coap.c:271-283 | writes the version bits only; version 1 on a valid packet changes nothing |
| CoapPdu.Pdu.SetType | picocoap/src/coap.c:285-297 | on a valid packet, changes exactly the message type |
| CoapPdu.Pdu.SetCode | picocoap/src/coap.c:299-311 | on a valid packet, changes exactly the code |
| CoapPdu.Pdu.SetMid | picocoap/src/coap.c:313-326 | on a valid packet, changes exactly the message id |
| CoapPdu.Pdu.SetToken | picocoap/src/coap.c:328-356 | on any packet, well formed or not, replaces the token bytes and moves the rest; on a valid one, succeeds exactly when the message with the new token is valid and fits, keeps all options and the payload, and changes nothing when it fails |
| MessageEdits.RetokenMeaning | picocoap/src/coap.c:338-353 | replacing the token bytes is the encoding of the same message with the new token |
| Bytes.LittleEndianRoundTrip | picocoap/src/coap.c:69 | reading back the low n bytes of an integer gives it modulo 256 to the n |
| CoapPdu.Pdu.InitPdu | picocoap/src/coap.c:251-269 | a new packet means an empty RST with message id 0, from any previous buffer contents |
| CoapPdu.Pdu.FindInsertion | picocoap/src/coap.c:365-380 | the scan ends behind every option of at most the given number, with the number before it |
| CoapPdu.Pdu.AdjustOptionDeltas | picocoap/src/coap.c:460-511 | rewrites the headers of all following options, each delta counted from the new number, and changes nothing else |
| Recount.RecountedExact | picocoap/src/coap.c:477-505 | such a recount is the encoding counted from the new number if and only if there is at most one option |
| CoapPdu.Pdu.AddOption | picocoap/src/coap.c:358-418 | the exact bytes, with payload or without; succeeds exactly when the message with the option fits, changes nothing when it does not, and is stable sorted insertion on the option list if and only if at most one option follows, so always when adding in order |
| PduEdits.InsertedExact | picocoap/src/coap.c:389-415 | that equivalence as a statement about the bytes, which have the right length in all cases |
| MessageEdits.InsertAppends | picocoap/src/coap.h:380-387 | in-order adding appends |
| MessageEdits.EncodeInsert | picocoap/src/coap.c:389-415 | the encoding after an insertion is the old prefix, the new option, and the following options counted from the new number |
| CoapPdu.Pdu.SetPayload | picocoap/src/coap.c:420-458 | the exact bytes and space check in all cases; gives the message with the new payload if and only if exactly one of the old and new payload is empty |
| MessageEdits.PayloadSetMeaning | picocoap/src/coap.c:442-455 | that equivalence, as a statement about the bytes |
| MessageEdits.EmptyPayloadMalformed | picocoap/src/coap.c:442-447 | an empty payload set on a packet without one leaves bytes that are not a message |
| CoapPdu.Pdu.GetPayload | picocoap/src/coap.c:213-244 | returns the length and position of exactly the message's payload |
| CoapPdu.Pdu.ValidatePkt | picocoap/src/coap.c:11-54 | accepts exactly the packets with a correct fixed header whose first byte behind the token is absent, a marker, or an option without reserved nibble; never rejects a valid packet |
| OptionLookup.ValidAccepted | picocoap/src/coap.c:19-53 | every well-formed packet is accepted |
| OptionLookup.AcceptsMalformed | picocoap/src/coap.c:33-51 | three malformed packets that validation accepts |
| CoapPdu.Pdu.GetOption | picocoap/src/coap.c:74-120 | returns a reference to the next option, or how the options end |
| CoapPdu.Pdu.GetOptionByNum | picocoap/src/coap.c:123-146 | returns the occ-th element of the filtered option list if it exists and occ is below 255, and otherwise a result numbered 0 |
| OptionLookup.IndicesExact | picocoap/src/coap.c:130-143 | the filtered list that the lookup is stated by is increasing and leaves no option out |
| OptionLookup.SearchStep | picocoap/src/coap.c:130-143 | each turn of the lookup loop settles the answer or passes one option |
| WholePacket.WriteMessage | picocoap/tests/coap_test.c:281-330 | init, setters, one added option per option and the payload leave exactly the message, and succeed exactly when its encoding fits |
| WholePacket.ReadOptions | picocoap/src/coap.c:74-120 | iterated getter calls deliver exactly the options, or none if the first is numbered 0 |
| WholePacket.ReadMessage | picocoap/tests/coap_test.c:112-181 | all getters together read back the message |
| WholePacket.RoundTrip | picocoap/tests/coap_test.c:183-229 | writing, validating and reading back succeeds exactly when the encoding fits, and returns the message if and only if it does not start with option 0 |
| Requests.OfferAllExact | src/exosite.c:595-600 | adding options one by one reports success exactly when the whole list fits, and then the whole list is there |
| Requests.RequestExact | src/exosite.c:565-644 | a builder reports success exactly when the whole request fits 576 bytes; the buffer then parses to the request with all its options and its payload, unless it is a write of an empty value, which is malformed |
| RequestMeaning.RequestSays | src/exosite.c:565-644 | for every kind of operation the literal message that goes out if it fits: code 1 or 2, options 6, 11 and 15 with their bytes, the alias, the 40 bytes of the key, vendor, model and serial in order, and the value; success is reported exactly for these |
| RequestMeaning.UntokenedSays | src/exosite.c:509-526 | the same message without token when it is sent again |
| RequestMeaning.RoomNeeded | src/exosite.c:565-644 | how long alias, value, vendor, model and serial may be for a request to fit, exactly |
| Requests.RequestLayout | src/exosite.c:565-644 | a request is its header, its token and a tail that neither message id nor token influences |
| Requests.RetransmitAgrees | src/exosite.c:509-528 | a rebuilt and overwritten request means the original with its token resized, and equals it byte for byte if and only if the stored token length is 2 |
| RequestKey.RequestWellFormed | src/exosite.c:626-644 | whatever fitted, the bytes that a builder leaves are a CoAP message exactly if it is not a write of an empty value whose marker fits |
| RequestKey.KeyInTail | src/exosite.c:595-597 | two requests with different keys differ behind the token unless it is an activation or the alias leaves no room for the key |
| RequestKey.RetransmitExact | src/exosite.c:509-526 | a retransmission built with another key: same message id, no token, and otherwise the original exactly if the key plays no part |
| RequestBuilder.BuildMsgRead | src/exosite.c:586-603 | leaves exactly the specified request bytes and reports success exactly when specified |
| RequestBuilder.BuildMsgObserve | src/exosite.c:605-624 | the same for a subscription |
| RequestBuilder.BuildMsgWrite | src/exosite.c:626-644 | the same for a write |
| RequestBuilder.BuildMsgActivate | src/exosite.c:565-584 | the same for an activation |
| RequestBuilder.BuildMsgEmpty | src/exosite.c:646-675 | a reset echoing message id and token, or an empty acknowledgement |
| ObserveSeq.FoldInjective | src/exosite.c:316-320 | two canonical Observe values of at most three bytes fold to the same word only if equal, across lengths |
| ObserveSeq.FoldOntoOld | src/exosite.c:390-393 | folding onto an old number gives the right one exactly when, depending on the length, certain bytes of the old word are zero and its low bits lie within those of the first new byte |
| ObserveSeq.AbsorbsExact | src/exosite.c:390-393 | the same in terms of the bytes of the old and the new Observe value |
| EngineReads.FoldObserve | src/exosite.c:316-320 | the fold loop computes the specified sequence number from the option found, and faults exactly when the lookup gives a null pointer |
| EngineReads.ObserveFault | picocoap/src/coap.c:106-109 | it does exactly if there are options, all numbered 1 to 5, and a payload |
| EngineReads.EntityTagFaults | src/exosite.c:317-320 | a notification with an entity tag and no Observe option is such a message |
| EngineReads.ReadMaxAge | src/exosite.c:339-343 | the Max-Age option if it is one byte, otherwise 120 |
| EngineReads.Concerns | src/exosite.c:313-436 | decides whether a packet concerns an operation |
| EngineReads.Load | src/exosite.c:308-310 | a datagram is let through exactly when it is a message |
| EngineRuns.StepInv | src/exosite.c:122-216 | every step keeps the invariant that ties each operation to its history |
| EngineRuns.ReceiveInv | src/exosite.c:308-456 | every received message keeps it |
| EngineRuns.TurnInv | src/exosite.c:460-562 | every operation's turn keeps it |
| EngineRuns.RunInv | src/exosite.c:262-291 | every state of every run satisfies it |
| EngineTheorems.KindsAndStates | src/exosite.c:122-216 | in every run: kind and state agree, only subscriptions are subscribed or owe an acknowledgement, activations never rest in success, retries are at most 4, no pending operation is without kind |
| EngineTheorems.TimeoutBound | src/exosite.c:501-535 | in every run, a one-shot operation is transmitted at most 5 times less its initial retry count, and is given up no earlier than 14 seconds after its first transmission (less for a nonzero initial count) |
| EngineProgress.FreshTimeout | src/exosite.c:501-535 | in every run, from a read or write queued on a freshly initialised operation on, until it is queued again: at most five successful transmissions, exactly five and at least 14 seconds before it is given up, and one more than its retry count while it is pending |
| EngineProgress.TimeoutUpper | src/exosite.c:493-532 | in every run, a pending one-shot operation times out within the longest wait after its last transmission, so that 5.5 seconds after it every turn finds it expired |
| EngineProgress.GivenUp | src/exosite.c:501-535 | over any run in which neither the user nor a message touches it, a pending one-shot operation is sent again in each turn that finds it expired and can send, and is given up exactly in the one after its fourth retry |
| EngineTheorems.MessageIds | src/exosite.c:493-498 | in every run, two pending operations share a message id exactly when their requests are a multiple of 65536 apart |
| EngineTheorems.AckResolves | src/exosite.c:354-432 | while no pending request is that old, a response with the message id of the packet first sent for an operation is matched with that operation alone, leaves it in the state that goes with its kind and payload, and leaves it pending exactly if it is a success without payload to a read or subscription; only operation 0 can change besides |
| EngineReception.MessagesAddressed | src/exosite.c:312-436 | in every run, a message is dispatched to operation i exactly if i is the lowest operation it is for by the logged packets: a notification by the token that the request sent for a subscribed operation carries, a response by the message id of the request sent for a pending one, a reset by token and message id; to that one alone if it is for no other, and to none if it is for none |
| EngineReception.NotificationAddressee | src/exosite.c:314 | in every run in which no two subscriptions were sent with the same token, a notification goes to the one whose logged request carries its token; one with an unknown token goes to none |
| EngineReception.NotificationDelivery | src/exosite.c:314-347 | in every run, a datagram that is a 2.05 notification whose payload fits leaves the payload and a NUL in the buffer of its subscription and the rest of the buffer as it was, an acknowledgement owed for its message id, the Observe number, and a timeout of Max-Age plus less than 1.5 s; everything else is unchanged |
| EngineReception.SubscriptionDelivery | src/exosite.c:374-399 | the same of a success response to a subscription |
| EngineReception.MessageReceived | src/exosite.c:308-456 | in every run, what any message does to its operation, to operation 0, to the device and to the log, in plain numbers, for every type, code and kind; nothing else changes |
| EngineReception.FaultExact | src/exosite.c:316-320 | in every run, which messages make the engine read through a null pointer |
| EngineDevice.DeviceExact | src/exosite.c:400-427 | in every run, the key is the payload of the last success response of 40 bytes to an activation, and the device is good exactly if it was or one of these or a 4.04 response was received; vendor, model and serial never change |
| EngineDevice.CheckExact | src/exosite.c:266-274 | a check queues activation on operation 0 exactly if the device is initialised or has a bad key and that operation is idle or past its timeout, and does nothing else |
| EngineDevice.GoodStays | src/exosite.c:266-274 | over any run from a good device it stays good, and no check queues an activation |
| EngineTheorems.ReceiveFrame | src/exosite.c:312-441 | over a whole receive phase, an operation at index 1 or above changes only through messages that it is the first match of |
| EngineTheorems.ReadDelivery | src/exosite.c:355-372 | in every run, a datagram that is a success response to a pending read is delivered to it: the read succeeds with exactly the payload and a NUL if and only if these fit and the payload is not empty, too long a payload fails it with the buffer untouched, and no other operation, nor the device or the log, changes |
| EngineTheorems.NotificationsAcknowledged | src/exosite.c:314-338 | in every run, the message ids of accepted notifications are one by one those acknowledged, plus the one still owed |
| EngineProgress.AnswersExact | src/exosite.c:314-455 | in every run, a received message makes an acknowledgement owed exactly for the operation it is first matched with and if it is a notification, confirmable or not, of code 2.05 with a payload that is not empty and fits; a reset is sent exactly if it is confirmable and not matched |
| EngineTheorems.OwedPersists | src/exosite.c:314-436 | over any run, an operation that owes an acknowledgement stays unchanged until its own successful send |
| EngineProgress.Freshness | src/exosite.c:332-337 | in every run, from a subscription queued on a freshly initialised operation on, as long as every Observe value taken for it is canonical and every one in a response absorbs the one before, a notification received for it is reported as new exactly when its value differs from the last one |
| EngineTheorems.RenewalFreshness | src/exosite.c:390-393 | in every run, after the response to a renewed subscription whatever notification comes next is compared correctly exactly if the new value absorbs the old one |
| EngineTheorems.SubscriptionPersists | README.md:41-43 | over any run, a subscription keeps its kind, dataport and bound until the user reuses it, and nothing is written into its buffer behind the bound |
| EngineTheorems.PassTurns | src/exosite.c:471-561 | after a pass, each operation has had exactly its own turn and has logged exactly the event of that turn |
| EngineRequests.TurnExact | src/exosite.c:471-561 | what a turn does in every state of an operation, in plain numbers: the request spelled out from its kind, dataport and value, four seconds, up to four retransmissions, and the acknowledgement owed |
| EngineRequests.RequestsTraced | src/exosite.c:473-532 | in every run, every request handed to the network is the one spelled out from the kind, dataport and value of the operation whose turn it was, and from the key of that time |
| EngineRequests.UserExact | src/exosite.c:122-216 | what each call writes into its operation, and that nothing else changes |
| EngineRequests.QueuedSent | src/exosite.c:122-176 | in every run, from a read, write or subscription queued by the user until the operation is queued anew, every request sent for it, first or again, asks for exactly that dataport with that value and the key of the time, if it fits |
| EngineTheorems.PassOutcome | src/exosite.c:471-561 | a pass queues every expired subscription anew, makes every sent one pending with a fresh message id, sends exactly one empty acknowledgement with the right message id for each one owed, and leaves none owed if all sends succeed |
| EngineTheorems.IdleMeans | README.md:55-61 | in every run, idle means that reads and writes have succeeded or failed and that subscriptions wait or have news |
| EngineTheorems.RetransmissionExact | src/exosite.c:509-526 | in every run, a retransmission has the message id of the packet logged as first sent and no token, and is otherwise that packet, in bytes and in meaning, exactly if it is an activation, the key is unchanged or the alias left no room for it |
| EngineWitnesses.RetransmittedWithNewKey | src/exosite.c:400-414 | for every freshly initialised device and every other key, a run in which it is not |
| EngineWitnesses.UpdateLost | src/exosite.c:390-393 | for every device, a run in which a renewed subscription does not report a new value |
| EngineWitnesses.FaultReached | src/exosite.c:314-320 | for every device, a run to a subscription for which every notification with an entity tag, a payload and no Observe option faults |
| EngineLog.EveryPacket | src/exosite.c:443-557 | in every run, every packet handed to the network is the request built with the logged key and a two-byte token, such a request with its token taken away if it is a retransmission, an empty acknowledgement or a reset; a request is a CoAP message exactly if it is not a write of an empty value whose marker fits |
| EngineRefinement.PhaseResets | src/exosite.c:443-455 | a receive phase sends at most one reset, exactly if it stops at a confirmable message, echoing its message id and token |
| Engine.Exosite.TakeTurn | src/exosite.c:471-561 | one operation's turn is the machine's turn step and does what is spelled out, and hands exactly the logged datagram to the network |
| Engine.Exosite.SendFirst | src/exosite.c:473-500 | a first transmission has the effect of the machine's turn and sends exactly its packet |
| Engine.Exosite.Resend | src/exosite.c:509-532 | a retransmission, likewise |
| Engine.Exosite.SendAck | src/exosite.c:546-557 | an acknowledgement, likewise |
| Engine.Exosite.Notification | src/exosite.c:314-351 | handles a notification as the machine does, field by field as spelled out |
| Engine.Exosite.Response | src/exosite.c:355-420 | handles a response as the machine does, field by field as spelled out for each kind |
| Engine.Exosite.ResponseDevice | src/exosite.c:400-427 | what a response does to key and device state, spelled out |
| Engine.Exosite.Dispatch | src/exosite.c:312-452 | dispatching one packet is the machine's receive step and does what is spelled out, to the operation that the packet is for by the log; or a fault exactly when the machine has none; a reset is handed to the network exactly if logged |
| Engine.Exosite.ReceiveOne | src/exosite.c:308-456 | one datagram: ignored if validation rejects it, otherwise the message that its bytes parse to does what is spelled out, to the operation it is for; if it is a success response to a pending read, the read gets the payload and nothing else changes |
| Engine.Exosite.ProcessWaitingDatagrams | src/exosite.c:295-457 | takes datagrams in order, delivers exactly the messages among them, and stops exactly at the first that concerns no operation, leaving the rest queued; sends one reset if that one is confirmable and none otherwise |
| Engine.Exosite.ProcessActiveOps | src/exosite.c:460-562 | one turn per operation, in order, with one start time, handing to the network what is logged |
| Engine.Exosite.CheckActivation | src/exosite.c:266-274 | the activation check, with its exact condition and effect |
| Engine.Exosite.Operate | src/exosite.c:262-291 | is a run of the machine made of the check, a receive phase that stops where it should and sends the resets due, and one pass; what is handed to the network is what the run logs; keeps the invariant; busy and idle are reported exactly when true, and idle means settled |
| Engine.Exosite.Init | src/exosite.c:79-107 | the device is initialised exactly when platform and socket come up and retrieving the key is not a fatal error, and then holds the retrieved key buffer |
| Engine.Exosite.QueueWrite | src/exosite.c:122-130 | kind, state, alias, value, bound and message id of the operation afterwards; every other field and operation is kept; the machine's user step |
| Engine.Exosite.QueueRead | src/exosite.c:146-154 | kind, state, alias, value, bound and message id of the operation afterwards; every other field and operation is kept; the machine's user step |
| Engine.Exosite.QueueSubscribe | src/exosite.c:168-176 | kind, state, alias, value, bound and message id of the operation afterwards; every other field and operation is kept; the machine's user step |
| Engine.Exosite.InitOp | src/exosite.c:194-207 | every field is reset, no other operation changes; the machine's user step |
| Engine.Exosite.DoneOp | src/exosite.c:209-216 | a subscription waits again, anything else becomes free; the machine's user step on finished operations |

## Left out

- CoapPdu.Pdu.AddOption: an option is inserted in front of others only if none of their headers changes its length and a payload comes after them. Otherwise the C code moves only one value and goes on in the middle of stale bytes, or decodes what lies behind the packet, so that the result does not depend on the packet alone; no builder does either.
- CoapPdu.Pdu.AdjustOptionDeltas: likewise covers headers of unchanged length in front of a payload marker.
- CoapPdu.Pdu.GetOption: `last` is the option that the previous call returned, or one numbered 0.
- CoapPdu.Pdu.ValidatePkt: needs the bytes it reads to lie inside the buffer, as the C code does not check.
- EngineReads.Load: datagrams that validation lets through although they are not messages are outside the model, because the getters read outside such packets.
- Engine.Exosite.ReceiveOne: likewise for the datagram it takes.
- Engine.Exosite.ProcessWaitingDatagrams: likewise for every datagram waiting.
- Engine.Exosite.Operate: likewise for every datagram waiting.
- Engine.Exosite.QueueRead: the buffer is not null and holds at least the announced bound, which is at least 1; the C call takes any, but an empty payload then makes it write a NUL through the null pointer or outside the bound.
- Engine.Exosite.QueueSubscribe: the same as for QueueRead.
- EngineReads.FoldObserve: where C leaves the fold undefined by a shift of 32 bits or more, the model takes an arbitrary value.
- What a process does after reading through a null pointer: the model ends the call there.
- Calling exo_op_done on a subscription that is not finished: the method covers it, the runs of the machine do not, as in examples/subscribe.c.
- Behaviour of the codec on packets that are not well formed, except for SetToken, SetMid and the raw getters, which retransmission of a malformed write needs.
- Sharing of memory between value buffers of different operations, and between these and the packet buffer.
- Negative option numbers and deltas, 64-bit wrap-around of time, big-endian hosts.
- The platform layer in pal/: sockets, files, clock and key storage are nondeterministic methods of `Platform.Pal` or parameters.
- The one-line predicates exo_is_op_valid and the like, exo_do_activate, exo_util_is_ascii_hex, the unused opt_ptr field, the example programs and the vendored test framework.
