# TomyGateway, verified

TomyGateway joins MQTT-SN clients on an XBee radio to an MQTT broker. This project models its hard
core in Dafny and proves what it is for: frames that survive a bad line, queues between five tasks
that never lose or mix up a message, a translation that keeps the meaning of what it forwards, and
two wire codecs that a reader of the standards understands.

`dafny verify dfyconfig.toml` checks everything. Modules, in reading order:

| file | what it models |
|---|---|
| `Wrappers`, `Bytes` | an optional value; bytes, 16-bit integers, flag masks as arithmetic and as the C++ operators |
| `XBeeFraming` | the decoder of `readPacket` as an automaton over single reads, the sender of `sendRequest`, streams of frames with noise |
| `XBeeReference` | a reader that keeps whole frames instead of counters; interrupted reading |
| `XBeeDevice` | the class `XBee` as it is coded, loop by loop |
| `EventQueues` | `EventQue`, `MessageQue`, and one `EventQue` under any number of threads |
| `TransmitRequests` | what a transmit request says, by a reader of its own, and the address taken from a received frame |
| `Pipeline`, `PipelineProof`, `PipelineDrain`, `PipelineBroadcasts` | the five tasks as a transition system with atomic steps, generic in the handlers, for any number of clients |
| `TopicRegistry` | the topic table of a client |
| `ClientStatus` | `updateStatus`, `setKeepAlive`, `checkTimeover` and the timer, over timed runs |
| `RemainingLengths`, `MqttCodec` | what the MQTT serializers write |
| `MqttReference` | readers written from sections 2.1, 2.4, 3.1, 3.3, 3.8 and 3.10 of MQTT V3.1 |
| `BrokerReceive` | TCP reads cut into packets and decoded |
| `SnFlags`, `SnPublish` | MQTT-SN flags bit by bit; `MQTTSnPublish`, whose fields are held twice |
| `Gateway`, `GatewayTask` | the handlers: as functions of a client's state, and as methods that change a `ClientNode` |
| `GatewayRuns` | any run of the handlers for one client |
| `Answers` | over all those runs: what message is sent to whom, if and only if what was received |
| `AckSlot`, `Acknowledgements`, `Subscriptions`, `WillHandshake`, `TopicAgreement` | what else holds over all those runs |
| `Radio`, `Deliveries` | from a message for a client to the frame on the line, and what of a broker PUBLISH gets through |
| `Upstream` | what the broker can make of the packets forwarded to it, and whether they fit the send buffer |
| `Loopback` | a PUBLISH translated, sent, received and translated back; the messages with the time |
| `EndToEnd` | the handlers inside the pipeline: protocol results in every reachable state of the five tasks |

How the pieces are stated. A method that changes state is proved equal to a function of its old
state, and the properties are proved about that function. Where the code falls short of what it is
meant to do, the code is kept and the exact condition is proved:

- a start byte inside a frame leaves its bytes in the checksum, so after it one frame is accepted
  exactly when that residue is zero (`Stabilises`); a cut after an escape byte is harmless exactly
  when the next byte is neither a start nor an escape byte (`CutIsHarmlessIff`);
- a CONNECT is written as a reader of the standard wants it but for a Will QoS 1 bit without the Will
  flag, and flags that section 3.1 rules out (`ConnectLayoutIff`); no run of the handlers makes one
  of these (`EveryConnectIsReadable`);
- a PUBLISH carries a message id even for QoS 0, which section 3.3 does not allow
  (`PublishLayoutIff`); a payload over 255 bytes is cut to 8 bits of length when it is received
  (`PublishDecodedIff`);
- PUBACK, UNSUBACK and CONNACK are read at fixed places, right exactly behind a Remaining Length of
  one byte, or where the bytes happen to be the same (`AckReadIff`);
- the receiving loop adds a 16-bit length, so a packet that declares a total of 0 modulo 65536 - a
  Remaining Length of 65532 in three bytes, for one - makes it turn without end, and nothing else
  does (`EndlessIff`);
- that loop keeps nothing between two TCP reads: every read is used up exactly if and only if every
  read ends where a packet ends (`ReadsMustBeAlignedIff`), and a packet in two reads can be misread
  (`CutPuback`);
- the length of an MQTT-SN message is 8 bits, and so is that of the radio frame around it, 13 bytes
  more: from 243 bytes on not one byte of a message goes out (`AllOrNothing`), so a broker's payload
  reaches the client up to 235 bytes and a topic name up to 236, or 104 and 105 where the frame is
  read with a buffer of 128 bytes (`DeliveredIff`);
- a SUBSCRIBE for QoS 0 goes to the broker with QoS 0 in its own header, where section 3.8 wants 1,
  and one for QoS 3 with a reserved value (`ForwardedSubscribeIff`); message id 0, which section 2.4
  reserves, is passed on (`ForwardedPublishIff`, `ForwardedUnsubscribeIff`);
- packets are serialized into 500 bytes whatever their size: a PUBLISH fits up to 493 bytes of name
  and data together, which a long name from the broker can exceed (`ForwardedPublishIff`);
- an id returned for a new topic name can stand for another one, once two-character names are
  stored: exactly when an earlier entry has it (`CreatedIdIsTheNamesIff`), which for an ordinary
  name means a two-character name under the next id (`OrdinaryNameFailsIff`), and cannot be where a
  string object starts with an aligned pointer, low byte first (`OrdinaryNamesWork`);
- the keep-alive time is 16 bits of milliseconds, so a client has the full one and a half times
  its duration up to 65 seconds (`FullPatienceIff`);
- without a will the CONNECT object is in the send queue and in the slot at once (`SharedIff`), and
  then exactly a late WILLTOPIC or WILLMSG rewrites it (`MutationIff`) or queues it twice
  (`QueuedOnceIff`);
- an UNSUBSCRIBE of a topic name reaches the broker with an empty name
  (`UnsubscribeKeepsNameIff`), and a REGACK says "accepted" with id 0 when there is no room
  (`RegackAgreement`);
- QoS 2 comes back as QoS 1 (`LoopbackKeepsMeaning`);
- DUP and RETAIN reach the client as the broker sent them exactly if neither is set
  (`DownstreamBitsKeptIff`), and the broker as the client sent them exactly if there is no flag at all
  or both are set (`UpstreamBitsKeptIff`);
- setTopicIdType clears the QoS instead of the type, so the type it leaves is the one asked for only
  if it was already, or 1 was asked for over 0 (`TypeIsSetIff`);
- a message filled from a radio payload keeps old values in its members (`ResponseAgreesIff`),
  until the handler absorbs it into another one (`ReceivedThenAbsorbed`).

References to objects that the code shares (CONNECT, PUBACK, SUBACK) are numbers in the order of
allocation. What the code takes from outside the model - clock, bytes of a `std::string` object,
bytes past the end of a short message - is a parameter (`Env`).

## Model

| member | source | states |
|---|---|---|
| XBeeFraming.Accept | TomyGateway/src/libmq/ZBStack.cpp:397-442 | one unescaped byte keeps the decoder valid (position at most 129, buffer of 128) and yields at most one outcome |
| XBeeFraming.OnRead | TomyGateway/src/libmq/ZBStack.cpp:375-395 | one read, successful or not, keeps the decoder valid and never leaves the escape branch pending after an outcome |
| XBeeFraming.CallsAreOneRun | TomyGateway/src/libmq/ZBStack.cpp:375-446 | splitting a sequence of reads into calls of readPacket changes neither the outcomes nor the final state |
| XBeeFraming.FeedItem | TomyGateway/src/libmq/ZBStack.cpp:379-434 | from any state, one sent frame and the noise after it yield nothing if an escape was pending, else one verdict that depends only on the old checksum residue; residue and position are cleared |
| XBeeFraming.Stabilises | TomyGateway/src/libmq/ZBStack.cpp:379-434 | from any decoder state, any list of frames with noise: one frame is lost if the escape flag was set, the next is accepted exactly when the residue was 0, all later ones are accepted with their API id, data and checksum |
| XBeeFraming.StreamRoundTrip | TomyGateway/src/libmq/ZBStack.cpp:472-509 | every list of requests with payload of at most 111 bytes, with noise between them and read interruptions anywhere, is decoded by the successive calls of readPacket to exactly those frames in order |
| XBeeFraming.NoControlBytes | TomyGateway/src/libmq/ZBStack.cpp:502-509 | no stuffed byte is a start byte, XON or XOFF, whatever is sent |
| XBeeFraming.FrameAcceptedIff | TomyGateway/src/libmq/ZBStack.cpp:397-442 | a frame of any size, read from power-up with any interruptions, is accepted as it was sent if its data has at most 124 bytes, and otherwise nothing is accepted |
| TransmitRequests.SaysIff | TomyGateway/src/libmq/ZBStack.cpp:322-355 | a separate reader gets frame id 0, both halves of the 64-bit address (low byte first), the 16-bit address (high byte first), radius, option and payload of any request from its frame data if and only if both halves have 32 bits and the payload at most 242 bytes |
| TransmitRequests.RequestsAreRead | TomyGateway/src/libmq/ZBStack.cpp:472-500 | any list of requests with payloads of at most 111 bytes, with noise around the frames and the reading interrupted anywhere, is accepted as exactly these requests, field by field, with their API ids |
| TransmitRequests.WrittenSays | TomyGateway/src/libmq/ZBStack.cpp:472-509 | the bytes written for a request are a start byte and, the stuffing undone, the length, API id, the request as that reader gets it, and a checksum that completes the sum to 255 |
| TransmitRequests.NoTwoAlike | TomyGateway/src/libmq/ZBStack.cpp:322-350 | requests that differ in any field, the address for one, are written as different bytes |
| TransmitRequests.UnicastSays | TomyGateway/src/libmq/ZBStack.cpp:540-549 | what unicast sends is a transmit request 0x10 with the address and bytes given, radius and option 0 |
| TransmitRequests.ReplyGoesBack | TomyGateway/src/libmq/ZBStack.cpp:200-211 | a message to the sender of any received frame goes out under the very address bytes of that frame |
| XBeeReference.RunRefinesReference | TomyGateway/src/libmq/ZBStack.cpp:375-446 | on any reads, counters, 8-bit residue and buffer give the outcomes of a reader that keeps whole frames |
| XBeeReference.AcceptanceSoundAndComplete | TomyGateway/src/libmq/ZBStack.cpp:375-442 | after any reads, any next read yields an accepted frame if and only if it feeds a byte, plain or by an escape pair, that makes the bytes since the start byte a complete frame whose checked bytes, with the residue, total 255 mod 256; the data handed out are exactly its data bytes |
| XBeeReference.AcceptedBytesIff | TomyGateway/src/libmq/ZBStack.cpp:375-442 | the same in terms of the bytes on the line: for well-escaped reads, the frame is the unstuffed bytes after the last start byte, and the residue that of the aborted frames before it |
| XBeeReference.UnstuffOfStuff | TomyGateway/src/libmq/ZBStack.cpp:502-509 | unstuffing undoes sendByte's stuffing of any bytes |
| XBeeReference.BufferTailUntouched | TomyGateway/src/libmq/ZBStack.cpp:420-442 | over any reads the position stays at most 129 and no buffer byte at 125 or above is written |
| XBeeReference.ChunkingIndependent | TomyGateway/src/libmq/ZBStack.cpp:377-395 | two ways of cutting the same well-escaped bytes into reads and calls give the same frames and final state |
| XBeeReference.SentStreamsAreWellEscaped | TomyGateway/src/libmq/ZBStack.cpp:502-509 | whatever sendByte writes, with start bytes as the only unescaped ones, is well escaped, so it can be cut anywhere |
| XBeeReference.CutIsHarmlessIff | TomyGateway/src/libmq/ZBStack.cpp:385-395 | a cut after an escape byte inside a frame changes nothing if and only if the next byte is neither start nor escape |
| XBeeDevice.XBee.ReadPacket | TomyGateway/src/libmq/ZBStack.cpp:375-446 | the loop with its buffer array does what one call of the automaton does, for any availability of input |
| XBeeDevice.XBee.Switch | TomyGateway/src/libmq/ZBStack.cpp:402-442 | the switch on the position does what Accept says, on the array in place |
| XBeeDevice.XBee.SendByte | TomyGateway/src/libmq/ZBStack.cpp:502-509 | writes the byte, or escape and the flipped byte |
| XBeeDevice.XBee.SendRequest | TomyGateway/src/libmq/ZBStack.cpp:472-500 | writes start byte, stuffed length, API id, frame data and checksum of the request, and nothing else |
| EventQueues.EventQue.PopOrTimeout | TomyGateway/src/libmq/ProcessFramework.h:275-289 | a timeout event is returned exactly when the queue is empty under the lock, else the front is removed |
| EventQueues.MessageQue.Pop | TomyGateway/src/GatewayResourcesProvider.h:263-270 | removes the front if there is one and nothing else |
| EventQueues.PostOrder | TomyGateway/src/libmq/ProcessFramework.h:265-297 | with any threads and consumers, events are taken in post order, each exactly once |
| EventQueues.WaitQueueSafe | TomyGateway/src/libmq/ProcessFramework.h:265-273 | on a wait-only queue, length = semaphore + tokens held + pushes not yet posted, and front() never runs on an empty queue |
| EventQueues.TimedQueueBound | TomyGateway/src/libmq/ProcessFramework.h:275-297 | with timedwait that sum is an upper bound on the length, and front() is still safe |
| EventQueues.MixedConsumersFault | TomyGateway/src/libmq/ProcessFramework.h:265-289 | the bound can be strict, and one wait after one timedwait can meet an empty queue |
| PipelineProof.ExecInv | TomyGateway/src/GatewayControlTask.cpp:62-192 | the invariant that links events, queues, semaphores, tasks and histories holds after every interleaving |
| PipelineProof.EventsMeetTheirMessages | TomyGateway/src/GatewayResourcesProvider.cpp:475-505 | in every reachable state no task has met NULL or an empty front(), and the mail a task holds is for the message at the front of that client's queue, the one pushed just before the event |
| PipelineProof.PipelineRefinesSequential | TomyGateway/src/GatewayControlTask.cpp:137-192 | for every interleaving and client there is an order of its messages, each side in arrival order, such that what reached broker and radio is a prefix of what a sequential machine sends; equal when nothing is in flight |
| PipelineProof.BrokerSendKeeps | TomyGateway/src/BrokerSendTask.cpp:75-148 | wait, read front, serialize, delete event: each step of the broker-send task keeps the invariant |
| PipelineProof.ClientSendKeeps | TomyGateway/src/ClientSendTask.cpp:62-79 | the same for the client-send task, broadcasts included |
| PipelineProof.ControlHandlesKeeps | TomyGateway/src/GatewayControlTask.cpp:137-192 | taking the front message of the event's client and running its handler keeps the invariant |
| PipelineBroadcasts.AnnouncementsAreSent | TomyGateway/src/ClientSendTask.cpp:73-76 | under every interleaving the announcements made by the control task are exactly those the radio was given for all clients, then those on their way to it, each once and in order; equal when nothing is in flight |
| PipelineBroadcasts.SearchesAreRead | TomyGateway/src/GatewayControlTask.cpp:122-135 | under every interleaving the searches received are exactly those the control task has turned to, then those on their way to it, each once and in order |
| PipelineDrain.ArrivedIsReceived | TomyGateway/src/ClientRecvTask.cpp:66-113 | the arrivals that these results speak of are exactly the messages that found their receiving task between two messages, in order |
| PipelineDrain.SemaphoreCounts | TomyGateway/src/libmq/ProcessFramework.h:265-297 | under every interleaving the gateway's semaphore is the number of its posts less that of the waits that did not time out |
| PipelineDrain.NothingIsStuck | TomyGateway/src/GatewayControlTask.cpp:62-192 | from every reachable state, a finite sequence of steps of the tasks alone, without arrivals or timeouts, leads to one with nothing in flight, in which all that had arrived is handled and all that the sequential machine sends is handed over, for every client |
| TopicRegistry.Topics.GetTopicByName | TomyGateway/src/libmq/Topics.cpp:151-160 | the index loop finds the first topic of that name, or none |
| TopicRegistry.Topics.GetTopicByTopicId | TomyGateway/src/libmq/Topics.cpp:162-171 | the index loop finds the first topic with that id, or none |
| TopicRegistry.Topics.Create | TomyGateway/src/libmq/Topics.cpp:174-201 | table and returned id are those of CreateTopic, for short names and a full table too |
| TopicRegistry.LookupsInverse | TomyGateway/src/libmq/Topics.cpp:142-171 | in a table of ordinary names, id lookup gives a name exactly when name lookup gives that id |
| TopicRegistry.RegistryIsAGrowingInjection | TomyGateway/src/libmq/Topics.cpp:125-201 | over every sequence of creations of ordinary names: names and ids distinct, ids 257 to 305 and 1, the table only extended, creation idempotent, 0 exactly when full and unknown |
| TopicRegistry.IdsAreNeverReassigned | TomyGateway/src/libmq/Topics.cpp:174-194 | an id in the table stands for the same name after any further creations |
| TopicRegistry.IdsCycle | TomyGateway/src/libmq/Topics.cpp:196-201 | the id counter goes from 256 to 65535 and round again, never into the reserved ids |
| TopicRegistry.CreatedIdIsTheNamesIff | TomyGateway/src/libmq/Topics.cpp:174-194 | in any table with room, the id returned for an unknown name stands for it afterwards if and only if no earlier entry has that id and, for a two-character name, the object bytes hold it |
| TopicRegistry.OrdinaryNameFailsIff | TomyGateway/src/libmq/Topics.cpp:174-194 | after any creations, a new ordinary name gets an id that is not its own exactly when a two-character name is stored under the next id |
| TopicRegistry.ShortNameWorksIff | TomyGateway/src/libmq/Topics.cpp:179-188 | after any creations, a new two-character name gets its own id exactly when only two-character names were created, none under 256, and its object bytes hold 256 |
| TopicRegistry.OrdinaryNamesWork | TomyGateway/src/libmq/Topics.cpp:179-188 | where no string object starts with an odd byte, as with an aligned pointer low byte first, a new ordinary name always gets an id that stands for it |
| TopicRegistry.OrdinaryNameFails | TomyGateway/src/libmq/Topics.cpp:179-188 | a concrete table in which the id returned for an ordinary name stands for a two-character one, whose object starts with the bytes 1 and 1 |
| ClientStatus.ClientNode.Update | TomyGateway/src/GatewayResourcesProvider.cpp:210-266 | status, keep-alive time and timer become those of UpdateStatus |
| ClientStatus.ClientNode.CheckTimer | TomyGateway/src/GatewayResourcesProvider.cpp:194-198 | an Active client whose timer is up becomes Lost, nothing else changes |
| ClientStatus.Timer.TimeIsUp | TomyGateway/src/libmq/ProcessFramework.cpp:385-405 | the elapsed milliseconds, seconds and truncated microseconds, exceed the limit of a started timer |
| ClientStatus.TimerFollowsTheRun | TomyGateway/src/GatewayResourcesProvider.cpp:200-230 | in every run, in any status, the keep-alive time is 1000 times the duration of the last entering CONNECT or sleeping DISCONNECT mod 65536, and the timer was started at the last entering CONNECT or refreshing message, with one and a half times that of the CONNECT |
| ClientStatus.ActiveOnlyByConnack | TomyGateway/src/GatewayResourcesProvider.cpp:216-217 | a step of a run enters Active if and only if a CONNACK is sent in Connecting |
| ClientStatus.AsleepIff | TomyGateway/src/GatewayResourcesProvider.cpp:226-232 | a step of a run enters Asleep if and only if it is a DISCONNECT with a non-zero duration in Active, or PINGRESP in Awake |
| ClientStatus.AwakeIff | TomyGateway/src/GatewayResourcesProvider.cpp:241-249 | Awake, if and only if it is PINGREQ in Asleep |
| ClientStatus.DisconnectedIff | TomyGateway/src/GatewayResourcesProvider.cpp:226-261 | Disconnected, if and only if it is a DISCONNECT of duration 0 in Active, any DISCONNECT in Awake, or an error of the socket |
| ClientStatus.ConnectingIff | TomyGateway/src/GatewayResourcesProvider.cpp:211-257 | Connecting, if and only if it is a CONNECT in Disconnected, Lost, Asleep or Awake |
| ClientStatus.AsleepSince | TomyGateway/src/GatewayResourcesProvider.cpp:226-264 | a client in Asleep or Awake went to sleep by one DISCONNECT, has been in one or the other since, and has the keep-alive time of that DISCONNECT |
| ClientStatus.ConnectingSince | TomyGateway/src/GatewayResourcesProvider.cpp:211-217 | a run in Connecting has been there since one CONNECT that entered it |
| ClientStatus.ElapsedRounds | TomyGateway/src/libmq/ProcessFramework.cpp:394-405 | the milliseconds computed from two clocks are the time between them, rounded down if the later one is further into its second and up if not |
| ClientStatus.LostIff | TomyGateway/src/GatewayResourcesProvider.cpp:194-226 | a step of a run enters Lost if and only if it is a check of an Active client, the timer having been started at a second other than 0, and the silence since the last entering CONNECT or refreshing message exceeds the limit, by a whole millisecond or by any microsecond as the clocks' microseconds stand |
| ClientStatus.LostOnlyAfterSilence | TomyGateway/src/GatewayResourcesProvider.cpp:194-226 | so nothing is lost in a silence up to the limit, floor(1.5 K) ms with K the last 16 bits of 1000 times the duration, and a check one millisecond later finds it |
| ClientStatus.FullPatienceIff | TomyGateway/src/GatewayResourcesProvider.cpp:200-204 | the limit after a CONNECT is the full 1.5 times its duration exactly when that is at most 65 s |
| RemainingLengths.RemainingLength.EncodeLength | TomyGateway/src/libmq/Messages.cpp:1014-1024 | the do-while loop leaves the base-128 digits of the length, at most three |
| RemainingLengths.RemainingLength.DecodeLength | TomyGateway/src/libmq/Messages.cpp:1026-1037 | the loop computes the digits' value with 16-bit multiplier and sum |
| RemainingLengths.RemainingLength.Deserialize | TomyGateway/src/libmq/Messages.cpp:1044-1051 | copies exactly the bytes up to the first without the high bit |
| RemainingLengths.DecodeIsValueModulo | TomyGateway/src/libmq/Messages.cpp:1026-1037 | 16-bit decoding of any terminated field is its value modulo 65536 |
| RemainingLengths.RemainingLengthRoundTrip | TomyGateway/src/libmq/Messages.cpp:1014-1051 | encode then decode is the identity on 0..65535, in at most three bytes, whatever follows |
| RemainingLengths.DecodeIsExactIff | TomyGateway/src/libmq/Messages.cpp:1026-1037 | decoding is exact exactly when the value is below 65536 |
| MqttCodec.WriteConnect | TomyGateway/src/libmq/Messages.cpp:1461-1508 | writes the CONNECT bytes into the buffer, returns their number cut to 16 bits, leaves the rest of the buffer alone |
| MqttCodec.WillFlagsAre | TomyGateway/src/libmq/Messages.cpp:1434-1444 | setWillMessage and setWillTopic, on any flags, mask them with 0xdb and set bit 2 |
| MqttCodec.WritePublish | TomyGateway/src/libmq/Messages.cpp:1560-1574 | the same for PUBLISH |
| MqttCodec.WriteSubscribe | TomyGateway/src/libmq/Messages.cpp:1385-1399 | the same for SUBSCRIBE |
| MqttCodec.WriteUnsubscribe | TomyGateway/src/libmq/Messages.cpp:1343-1355 | the same for UNSUBSCRIBE |
| MqttReference.ConnectLayoutIff | TomyGateway/src/libmq/Messages.cpp:1461-1508 | for every flag combination and all strings that fit 16 bits, a reader of section 3.1 recovers every field and ends at the declared length if and only if Will QoS 1 implies the Will flag, a Will has no QoS 3, and a password comes with a user name |
| MqttReference.SubscribeLayoutIff | TomyGateway/src/libmq/Messages.cpp:1385-1399 | a reader of section 3.8 recovers message id, topic and QoS if and only if the packet is sent with QoS 1, its message id is not 0 and the QoS asked for is 0, 1 or 2 |
| MqttReference.UnsubscribeLayoutIff | TomyGateway/src/libmq/Messages.cpp:1343-1355 | a reader of section 3.10 recovers message id and topic if and only if the packet is sent with QoS 1 and its message id is not 0 |
| MqttReference.PublishLayoutIff | TomyGateway/src/libmq/Messages.cpp:1560-1574 | a reader of section 3.3 recovers topic, message id and payload if and only if the QoS is 1 or 2 and the message id is not 0 |
| BrokerReceive.Receiver.DeserializeAt | TomyGateway/src/libmq/Messages.cpp:1120-1140 | the deserializer chosen by the first byte, on the array, including unknown types and bytes that would lie outside |
| BrokerReceive.Receiver.RecvAndFireEvent | TomyGateway/src/BrokerRecvTask.cpp:110-190 | for any received bytes the loop queues the packets of Split in order, one event each, and ends the way Split says |
| BrokerReceive.PublishDecodedIff | TomyGateway/src/libmq/Messages.cpp:1576-1598 | a serialized PUBLISH is decoded to itself, whatever follows it, exactly when its payload has at most 255 bytes |
| BrokerReceive.TakeOne | TomyGateway/src/libmq/Messages.cpp:1120-1140 | each of the six packet types is decoded to itself with its own length |
| BrokerReceive.UnknownIff | TomyGateway/src/BrokerRecvTask.cpp:125-183 | on any bytes the packet is of unknown type if and only if the high half of its first byte is not 2, 3, 4, 9, 11 or 13 |
| BrokerReceive.AckReadIff | TomyGateway/src/libmq/Messages.cpp:1120-1228 | PUBACK, UNSUBACK and CONNACK behind any complete length field of up to four bytes are read right if and only if bytes 2 and 3 of the packet are what follows that field, so always behind one byte |
| BrokerReceive.SubackOfAnyLength | TomyGateway/src/libmq/Messages.cpp:1303-1316 | a SUBACK behind any such field, minimal or not, is read with the id and QoS that follow it |
| BrokerReceive.PublishOfAnyLength | TomyGateway/src/libmq/Messages.cpp:1576-1598 | a PUBLISH behind any such field is read with its flags, topic and message id, and as payload as many bytes as the declared length leaves for it, modulo 256 |
| BrokerReceive.ChunkSplitsExactly | TomyGateway/src/BrokerRecvTask.cpp:125-189 | any concatenation of complete packets of at most 500 bytes is cut into exactly those packets, in order, with nothing left |
| BrokerReceive.TakenLength | TomyGateway/src/BrokerRecvTask.cpp:184-188 | for every packet taken, of any type, the pointer moves on by the total it declares, cut to 16 bits |
| BrokerReceive.EndlessIff | TomyGateway/src/BrokerRecvTask.cpp:184-188 | for any buffer and number of received bytes, the loop turns without end if and only if it comes to a packet, of any handled type, whose declared total length is 0 modulo 65536 |
| BrokerReceive.ReadsMustBeAlignedIff | TomyGateway/src/BrokerRecvTask.cpp:110-189 | whatever packets the broker sends (PUBLISH payloads up to 255 bytes, packets below 65532) and however TCP cuts them into reads: every read is used up exactly if and only if every read ends where a packet ends, and then the packets are queued as sent |
| BrokerReceive.CutPuback | TomyGateway/src/BrokerRecvTask.cpp:110-189 | a PUBACK read without its last byte is queued with another message id, and that byte then makes no packet |
| SnPublish.FieldsAgreeWithWire | TomyGateway/src/libmq/Messages.cpp:525-661 | after any sequence of setters, setData, setFrame and absorb(MQTTSnMessage), the members hold what those calls amount to and the bytes are its encoding |
| SnPublish.ResponseAgreesIff | TomyGateway/src/libmq/Messages.cpp:652-654 | after absorb(XBResponse) members and bytes are those of one content exactly when the payload counts its own bytes and has the flags, topic id and message id that the members had before |
| SnPublish.ReceivedThenAbsorbed | TomyGateway/src/ClientRecvTask.cpp:109-113 | the new message of the receiving task agrees with its payload exactly when that counts its own bytes and has 0 for flags and ids; the message the handler absorbs it into always holds the payload's content |
| SnPublish.AbsorbedIsSent | TomyGateway/src/libmq/Messages.cpp:656-661 | a message that absorbs the bytes of another equals it |
| SnPublish.FlagCallsSay | TomyGateway/src/libmq/Messages.cpp:538-586 | what each setter of flags does to DUP, QoS, RETAIN and type, read bit by bit: setDup, setRetain and setQos what their names say, setTopicIdType(0) and (1) set the QoS to 0, (1) also the low bit of the type; Will and clean are always cleared, the other fields kept |
| SnPublish.TypeIsSetIff | TomyGateway/src/libmq/Messages.cpp:573-586 | the type is the one asked for if and only if it was already, or 1 was asked for over 0; the QoS is kept if and only if it was 0 or a type above 1 was asked for |
| SnPublish.TopicSays | TomyGateway/src/libmq/Messages.cpp:593-596 | the two bytes of the topic id become the first two characters, as far as there are any, and the old bytes after them |
| SnPublish.MQTTSnPublish.PutData | TomyGateway/src/libmq/Messages.cpp:621-628 | a new block with the data, then ids and masked flags, as the function says |
| SnPublish.MQTTSnPublish.PutFrame | TomyGateway/src/libmq/Messages.cpp:638-645 | a new block with the body, members read from it |
| SnPublish.MQTTSnPublish.PutQos | TomyGateway/src/libmq/Messages.cpp:555-561 | the QoS bits are cleared and set only for QoS 1, in member and byte |
| SnPublish.MQTTSnPublish.PutTopicIdType | TomyGateway/src/libmq/Messages.cpp:573-586 | types 0 and 1 clear the QoS bits, type 1 sets bit 0, others change nothing |
| SnPublish.MQTTSnPublish.PutTopic | TomyGateway/src/libmq/Messages.cpp:593-596 | at most two characters replace the topic id, which is read again |
| SnPublish.MQTTSnPublish.AbsorbMessage | TomyGateway/src/libmq/Messages.cpp:656-661 | bytes, type and members of the other message, with its own length in front |
| SnPublish.MQTTSnPublish.AbsorbPayload | TomyGateway/src/libmq/Messages.cpp:130-135 | bytes and type of the payload, members unchanged |
| GatewayTask.HandleSnPublish | TomyGateway/src/GatewayControlTask.cpp:203-264 | state and queues become those of the function: forwarded with an acknowledgement in the slot, or rejected |
| GatewayTask.HandleSnSubscribe | TomyGateway/src/GatewayControlTask.cpp:269-374 | all four topic types: rejected, predefined, or a topic id created and the SUBSCRIBE forwarded |
| GatewayTask.HandleSnUnsubscribe | TomyGateway/src/GatewayControlTask.cpp:380-427 | rejected or forwarded, with the name the code puts in |
| GatewayTask.HandleSnConnect | TomyGateway/src/GatewayControlTask.cpp:469-509 | a new object in the slot, a new registry for a clean session, and either WILLTOPICREQ or the object queued |
| GatewayTask.HandleSnWillTopic | TomyGateway/src/GatewayControlTask.cpp:514-534 | the object in the slot gets the topic and its flags masked; WILLMSGREQ is sent; nothing without an object |
| GatewayTask.HandleSnWillMsg | TomyGateway/src/GatewayControlTask.cpp:539-568 | the object gets the message, is queued and leaves the slot; without an object CONNACK with congestion |
| GatewayTask.HandleSnRegister | TomyGateway/src/GatewayControlTask.cpp:594-618 | the topic is created and REGACK carries whatever id came of it |
| GatewayTask.HandlePuback | TomyGateway/src/GatewayControlTask.cpp:627-642 | the waiting object moves from the slot to the queue exactly if the ids match |
| GatewayTask.HandleSuback | TomyGateway/src/GatewayControlTask.cpp:662-679 | the same for SUBACK, with the granted QoS put in |
| GatewayTask.HandlePublish | TomyGateway/src/GatewayControlTask.cpp:736-788 | PUBLISH under the known id, or REGISTER and PUBLISH under a new one, or nothing; a message longer than its 8-bit length has no determined content |
| GatewayTask.Run | TomyGateway/src/GatewayControlTask.cpp:137-188 | the two dispatches: every message goes to its handler, others change nothing |
| GatewayTask.ClientNode.GetNextSnMsgId | TomyGateway/src/GatewayResourcesProvider.cpp:136-142 | the next 8-bit id: one more, with 255 followed by 1 (never 0: Answers.TimeIff) |
| Answers.PubAckIff | TomyGateway/src/GatewayControlTask.cpp:248-263 | over every run, a PUBACK made on the spot is sent if and only if a client PUBLISH with that message id, not 0, is on that topic id, which no topic has; its code is 2, and nothing else is sent to anyone |
| Answers.WillTopicReqIff | TomyGateway/src/GatewayControlTask.cpp:493-501 | WILLTOPICREQ is sent if and only if a CONNECT has the Will flag, alone |
| Answers.WillMsgReqIff | TomyGateway/src/GatewayControlTask.cpp:514-534 | WILLMSGREQ is sent if and only if a WILLTOPIC comes while a handshake is open, alone |
| Answers.ConnackIff | TomyGateway/src/GatewayControlTask.cpp:558-566 | CONNACK with code 0 is sent if and only if the broker's accepts, 3 for any other of the broker, 1 for a WILLMSG with no open handshake, alone |
| Answers.PingRespIff | TomyGateway/src/GatewayControlTask.cpp:162-184 | PINGRESP is sent if and only if the broker sends one, alone |
| Answers.PassedOnIff | TomyGateway/src/GatewayControlTask.cpp:137-160 | PINGREQ, DISCONNECT and a PUBACK with its message id go to the broker if and only if the client sends one, alone |
| Answers.SubackIff | TomyGateway/src/GatewayControlTask.cpp:269-310 | a SUBACK made on the spot is sent if and only if a SUBSCRIBE with a message id has the reserved type, then with code 2, or the predefined type, then with code 0 for the time topic and 2 for others, and with the QoS asked for if it is 1 |
| Answers.TimeIff | TomyGateway/src/GatewayControlTask.cpp:312-331 | on a client's message a PUBLISH goes back to it if and only if it subscribes to the predefined time topic: type and id 1, the time as data, and message ids 1 to 255 in turn, as often as the time was asked for in that run, never 0 |
| Answers.UnsubackIff | TomyGateway/src/GatewayControlTask.cpp:380-427 | UNSUBACK is sent if and only if the broker sends one with that id, or an UNSUBSCRIBE with that id has the reserved type, or the predefined type and a known stray id, alone |
| Answers.ForwardIff | TomyGateway/src/GatewayControlTask.cpp:203-427 | PUBLISH, SUBSCRIBE and UNSUBSCRIBE go to the broker if and only if the client's message of that kind is not rejected, with its message id, alone |
| Answers.NothingElse | TomyGateway/src/GatewayControlTask.cpp:137-188 | no other message is sent to a client, REGACK only for a REGISTER, REGISTER only for a PUBLISH of the broker, PUBLISH only for that or the time topic |
| Answers.DownstreamFlagsSay | TomyGateway/src/GatewayControlTask.cpp:766-781 | downstream flags bit by bit: two-character type exactly for such a topic, QoS 1 kept and any other made 0, DUP exactly for RETAIN, never RETAIN, Will or clean |
| Answers.DownstreamBitsKeptIff | TomyGateway/src/GatewayControlTask.cpp:766-781 | DUP and RETAIN reach the client as the broker sent them if and only if neither is set |
| Answers.UpstreamBitsKeptIff | TomyGateway/src/GatewayControlTask.cpp:225-232 | DUP and RETAIN reach the broker as the client sent them if and only if there is no flag at all or both are set; any QoS but 0 becomes 1 |
| AckSlot.SlotIsPending | TomyGateway/src/GatewayControlTask.cpp:220-230 | over any events the slot is full exactly when some forwarded request with an id is unanswered, and then holds the ids of the latest one |
| AckSlot.AckOnce | TomyGateway/src/GatewayControlTask.cpp:627-642 | at most one acknowledgement per request and one request per acknowledgement |
| Acknowledgements.SlotOfState | TomyGateway/src/GatewayControlTask.cpp:627-679 | over every run the PUBACK slot, and the SUBACK slot, with their objects are those of the one-slot machine on the run's events |
| Acknowledgements.AckCorrelation | TomyGateway/src/GatewayControlTask.cpp:627-679 | in every run a message makes the gateway send a PUBACK (SUBACK) that says accepted, in either form - the object that waited, or a message made on the spot, the time topic apart - if and only if it is the broker's first one with the id of the latest forwarded PUBLISH (SUBSCRIBE) |
| Acknowledgements.AckContent | TomyGateway/src/GatewayControlTask.cpp:220-230 | and what is queued is one object with the topic id and message id of that request |
| Acknowledgements.AckHandedOver | TomyGateway/src/GatewayControlTask.cpp:635-639 | once queued the object is never in the slot again and its ids never change |
| Acknowledgements.AckQueuedOnce | TomyGateway/src/GatewayControlTask.cpp:635-639 | and it is never queued a second time |
| Subscriptions.GrantedQos | TomyGateway/src/GatewayControlTask.cpp:667-671 | the queued SUBACK has, for ever, the QoS bits of QoS 1 if the broker message that released it grants 1, else of QoS 0, and no other flag |
| Subscriptions.SubackAgreement | TomyGateway/src/GatewayControlTask.cpp:333-352 | an accepted SUBACK carries the message id of its SUBSCRIBE and an id that means its topic until the next clean session, or 0 exactly when there was no room |
| WillHandshake.HandshakeOfState | TomyGateway/src/GatewayControlTask.cpp:469-568 | over every run the CONNECT objects, the slot and the queued references are those of the handshake machine |
| WillHandshake.SlotMeaning | TomyGateway/src/GatewayControlTask.cpp:478-509 | the slot is full exactly after a CONNECT with no WILLMSG since; its object is that CONNECT with the last WILLTOPIC applied, and it is queued exactly if no will was wanted |
| WillHandshake.SilentUntilWillMsg | TomyGateway/src/GatewayControlTask.cpp:493-502 | after a CONNECT with the Will flag no MQTT CONNECT is queued until a WILLMSG |
| WillHandshake.WillMsgCompletes | TomyGateway/src/GatewayControlTask.cpp:546-552 | the WILLMSG queues the object of that CONNECT, for the first time, with Will flag, this message, the last WILLTOPIC, client id and duration; clean session survives exactly without a WILLTOPIC |
| WillHandshake.WillConnectQueued | TomyGateway/src/GatewayControlTask.cpp:546-552 | that object is all the handler sends |
| WillHandshake.ConnackIff | TomyGateway/src/GatewayControlTask.cpp:558-566 | the client gets a CONNACK exactly for one of the broker, and for a WILLMSG that comes when no handshake is open |
| WillHandshake.WillConnectIsFinal | TomyGateway/src/GatewayControlTask.cpp:549-550 | whatever comes later, that object is in no slot, unchanged, and was queued exactly once |
| WillHandshake.SharedIff | TomyGateway/src/GatewayControlTask.cpp:502-507 | an object is in slot and queue at once exactly when the latest handshake is a CONNECT without the Will flag |
| WillHandshake.QueuedOnceIff | TomyGateway/src/GatewayControlTask.cpp:546-550 | no object is queued twice if and only if no WILLMSG comes while the object is shared |
| WillHandshake.MutationIff | TomyGateway/src/GatewayControlTask.cpp:514-552 | a message changes a queued object exactly when a CONNECT without a will is open and it is a WILLMSG, or a WILLTOPIC that differs from the last one, or a first one that brings a topic or follows a clean-session CONNECT |
| WillHandshake.DisciplineKeepsQueue | TomyGateway/src/GatewayControlTask.cpp:514-568 | for a client that sends WILLTOPIC and WILLMSG only in a will handshake, everything queued keeps its content for ever |
| WillHandshake.QueuedFrom | TomyGateway/src/GatewayControlTask.cpp:493-552 | every queued object was made by one CONNECT, and was queued by it, or, if that wanted a will, by the WILLMSG of its handshake |
| WillHandshake.QueuedAsSaid | TomyGateway/src/GatewayControlTask.cpp:493-507 | for a disciplined client, what a CONNECT without a will queued is for ever what that CONNECT said |
| WillHandshake.SharedObjectChanges | TomyGateway/src/GatewayControlTask.cpp:502-522 | a concrete run in which a queued CONNECT loses its clean-session flag |
| WillHandshake.QueuedWillsAreComplete | TomyGateway/src/GatewayControlTask.cpp:539-552 | in any run, every queued object was made by one CONNECT, and if that wanted a will, it was queued once, is out of the slot, and has flag, topic, message, client id and duration of that one handshake |
| WillHandshake.EveryConnectIsReadable | TomyGateway/src/libmq/Messages.cpp:1434-1459 | every CONNECT object at any moment of any run is recovered from its bytes by a reader of section 3.1 |
| TopicAgreement.TopicsOfState | TomyGateway/src/GatewayControlTask.cpp:484-491 | over every run the registry is what the names and clean CONNECTs of the messages make it |
| TopicAgreement.IdsLast | TomyGateway/src/libmq/Topics.cpp:174-194 | an id a client has keeps its name until the next clean session |
| TopicAgreement.DownstreamAgreement | TomyGateway/src/GatewayControlTask.cpp:741-786 | every broker PUBLISH is queued for the client, with its flags, message id and payload, under an id that means its topic until the next clean session, after a REGISTER with that same id, message id 0 and the name exactly if the name was unknown, and nothing else; dropped exactly if unknown and full |
| TopicAgreement.RegackAgreement | TomyGateway/src/GatewayControlTask.cpp:594-618 | the id in a REGACK means the name until the next clean session, or is 0 exactly when there is no room |
| TopicAgreement.UnsubscribeKeepsNameIff | TomyGateway/src/GatewayControlTask.cpp:392-403 | for all four topic types: the forwarded UNSUBSCRIBE has the client's name exactly for the two-character type, or an empty name with the name type or with a predefined type whose stray id is unknown |
| Radio.AllOrNothing | TomyGateway/src/libmq/ZBStack.cpp:353-355 | the frame of a message carries it whole up to 242 bytes, and above that not one byte of it |
| Deliveries.DeliveredIff | TomyGateway/src/ClientSendTask.cpp:62-79 | in any run the broker's payload gets over the radio, with flags and message id, under one id and no other, if and only if the name is known or there is room, and it has at most 235 bytes; a REGISTER that tells the name for that same id, if and only if it is unknown, there is room, and it has at most 236 bytes; the id means the topic until the next clean session; 104 and 105 where a decoder like the gateway's own reads the frame |
| Upstream.ForwardedPublishIff | TomyGateway/src/GatewayControlTask.cpp:203-264 | a PUBLISH on a registered id is forwarded with its name, message id and data; a reader of the standard gets them if and only if the client's QoS bits and message id are not 0; it fits the send buffer if and only if name and data have at most 493 bytes |
| Upstream.ForwardedSubscribeIff | TomyGateway/src/GatewayControlTask.cpp:269-352 | a SUBSCRIBE of a name is forwarded with its message id, name and QoS; a reader of the standard gets them if and only if the client asks for QoS 1 or 2 with a message id that is not 0; it fits up to 492 bytes of name |
| Upstream.ForwardedUnsubscribeIff | TomyGateway/src/GatewayControlTask.cpp:380-427 | what is forwarded has the client's message id, and its topic exactly if the type says two characters, or says a name and some topic has id 0, else none; a reader of the standard gets both if and only if the id is not 0; it fits up to 493 bytes of topic |
| Loopback.LoopbackKeepsMeaning | TomyGateway/src/GatewayControlTask.cpp:203-264 | a PUBLISH on a registered id, translated, serialized, received and translated back, keeps topic id, message id and data, causes no REGISTER, and keeps its QoS exactly if it is 0 or 1 |
| Loopback.EffectOfCalls | TomyGateway/src/GatewayControlTask.cpp:741-786 | the calls handlePublish makes on its MQTTSnPublish amount to the message the handler is said to send |
| Loopback.TimeOnTheWire | TomyGateway/src/GatewayControlTask.cpp:103-331 | the calls made for the time, announced or asked for, leave a message of predefined type and id 1 with the time as data, byte for byte |
| Loopback.LoopbackOnTheWire | TomyGateway/src/GatewayControlTask.cpp:736-788 | the same from the client's bytes to the bytes of the message for it: the same packet but for the flags; it leaves the radio, whole, exactly up to 235 bytes of data |
| EndToEnd.SequentialIsRun | TomyGateway/src/GatewayControlTask.cpp:137-192 | the pipeline's sequential machine with these handlers is a run of GatewayRuns |
| EndToEnd.EveryAcceptedAckIsJustified | TomyGateway/src/ClientSendTask.cpp:62-79 | in every reachable state of the five tasks, a PUBACK that says accepted, in whatever form, given to the radio is one object, given once, with the ids of a PUBLISH that came from this client and that the broker acknowledged |
| EndToEnd.EveryConnectIsComplete | TomyGateway/src/BrokerSendTask.cpp:80-148 | in every reachable state, each CONNECT object given to the socket was made by one CONNECT of that client; if that wanted a will, it was given once, is out of the handlers' hands, and has Will flag, topic, message, client id and duration of one and the same handshake; if not, it is what that CONNECT said, for a disciplined client |
| EndToEnd.EveryDeliveryIsAddressed | TomyGateway/src/ClientSendTask.cpp:62-79 | in every reachable state, for ordinary names and any number of sessions, a normal PUBLISH given to the radio has payload and message id of a PUBLISH that came from the broker, under an id that means its topic from then on until the next clean session |

## Left out

- Serial port, sockets, `select`, reconnecting after a failed send, client list files, threads and exceptions: input is a sequence of reads with any availability, a TCP read is one buffer.
- `receiveResponse` and its `_complete` flag, which stays set after the first good frame: decoder results are per return of `readPacket`. Of the ZigBee receive packet accessors only the sender's addresses are modelled.
- Memory: allocation never fails, `reset` freeing the frame buffer is a fixed 128-byte buffer, deleted objects are not reused. A pointer is the number of its allocation; that a shared CONNECT is deleted after sending shows as "queued and in the slot" (`SharedIff`) and "queued twice" (`QueuedOnceIff`).
- Pipeline: `updateStatus` and the reads of a queued object by the sending task are single steps; the client list is any set of clients; ADVERTISE, GWINFO and the time broadcast are announcements whose contents are given; that one GWINFO is made for each search is taken from outside, that each search is turned to once is proved (`SearchesAreRead`).
- `handleDisconnect`: the receiving task makes no such message.
- Two-character topic names that get into a registry: modelled with the object's bytes as a parameter, excluded from the agreement theorems; what becomes of the registry then is stated exactly (`CreatedIdIsTheNamesIff`, `OrdinaryNameFailsIff`, `ShortNameWorksIff`).
- `isWildCard`, `isMatch`, `match`, `ClientList::erase`, `authorize`: not on the path of a message.
- Bytes of MQTT-SN messages other than PUBLISH and REGISTER: taken as their fields. MQTT PUBACK, PINGREQ and DISCONNECT packets to the broker likewise.
- What happens to memory after `setData` or `setTopicName` has written past its block, and the bytes of that message other than length and type, are not determined: the handlers then send `Overrun` and go on. What happens after a packet over 500 bytes is not determined either; `MqttCodec` requires room.
- What the XBee module itself refuses to send over the air; `DeliveredIff` is about the frame on the serial line.
- `MQTTSnRegister`: REGISTER is sent as its fields; its own copy of the name, which `setTopicName` does not update, is not modelled.
- Debug printing, which serializes received packets a second time.
