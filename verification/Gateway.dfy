/** GatewayControlTask: what each received message does to a client's state and what is sent.
    Said here as functions, for one client. */
module Gateway {
  import opened Wrappers
  import opened Bytes
  import opened TopicRegistry
  import opened MqttCodec
  import opened Pipeline
  import BrokerReceive
  import Wire = SnPublish

  const FLAG_DUP := 0x80
  const FLAG_RETAIN := 0x10
  const FLAG_WILL := 0x08
  const FLAG_CLEAN := 0x04

  const TYPE_PREDEFINED := 1
  const TYPE_SHORT := 2
  const TYPE_RESERVED := 3

  const RC_ACCEPTED: byte := 0
  const RC_CONGESTION: byte := 1
  const RC_INVALID_TOPIC_ID: byte := 2
  const RC_IDENTIFIER_REJECTED: byte := 2
  const RC_NOT_SUPPORTED: byte := 3

  // ---------- Messages ----------

  /** MQTT-SN, both directions. A SUBSCRIBE holds a name and an id, which are the same bytes.
      Irregular: a type no handler takes. Overrun: a message whose 8-bit length is less than what
      was written to it; its other bytes are not determined. */
  datatype SnMessage =
    | SnConnect(flags: byte, duration: uint16)
    | SnWillTopic(topic: Str)
    | SnWillMsg(message: Str)
    | SnRegister(topicId: uint16, msgId: uint16, name: Str)
    | SnPublish(flags: byte, topicId: uint16, msgId: uint16, data: seq<byte>)
    | SnPubAck(topicId: uint16, msgId: uint16, returnCode: byte)
    | SnSubscribe(flags: byte, msgId: uint16, name: Str, topicId: uint16)
    | SnUnsubscribe(flags: byte, msgId: uint16, name: Str)
    | SnPingReq
    | SnDisconnect
    | SnConnack(returnCode: byte)
    | SnWillTopicReq
    | SnWillMsgReq
    | SnRegack(topicId: uint16, msgId: uint16, returnCode: byte)
    | SnSuback(flags: byte, topicId: uint16, msgId: uint16, returnCode: byte)
    | SnUnsuback(msgId: uint16)
    | SnPingResp
    | Irregular
    | Overrun(msgType: byte, length: byte)

  /** MQTT, to the broker. */
  datatype MqMessage =
    | MqPublish(p: Publish)
    | MqPubAck(id: uint16)
    | MqSubscribe(s: Subscribe)
    | MqUnsubscribe(u: Unsubscribe)
    | MqPingReq
    | MqDisconnect

  /** What a handler finds outside: the clock, the bytes at the address of a std::string, in
      createTopic and in handlePublish, and bytes after the end of a short message. */
  datatype Env = Env(time: seq<byte>, objectBytes: uint16, ownBytes: uint16, stray: uint16)

  /** What a queue entry points to. The three kinds of object that a client's slots can point to
      at the same time are named, so that sharing can be seen. */
  datatype Item =
    | FromClient(sn: SnMessage, env: Env)
    | FromBroker(packet: BrokerReceive.BrokerPacket, env: Env)
    | ForClient(out: SnMessage)
    | ForBroker(mq: MqMessage)
    | ConnectAt(k: nat)
    | PubAckAt(k: nat)
    | SubAckAt(k: nat)

  // ---------- A client's state ----------

  datatype AckObject = AckObject(topicId: uint16, msgId: uint16)

  datatype SubAckObject = SubAckObject(flags: byte, ids: AckObject)

  /** Registry, slots and the objects made for the slots, oldest first. */
  datatype NodeData = NodeData(
    clientId: Str, topics: Table, snMsgId: byte,
    connects: seq<Connect>, connect: Option<nat>,
    pubAcks: seq<AckObject>, waitedPubAck: Option<nat>,
    subAcks: seq<SubAckObject>, waitedSubAck: Option<nat>)

  predicate InRange(slot: Option<nat>, n: nat) {
    slot.Some? ==> slot.value < n
  }

  function NewNode(clientId: Str): NodeData {
    NodeData(clientId, NewTable(), 0, [], None, [], None, [], None)
  }

  type Node = n: NodeData |
    && InRange(n.connect, |n.connects|)
    && InRange(n.waitedPubAck, |n.pubAcks|)
    && InRange(n.waitedSubAck, |n.subAcks|)
    witness NewNode([])

  type Handled = Reply<Node, Item>

  const TYPE_SN_REGISTER: byte := 0x0a

  /** setMessageLength: 8 bits. */
  function MessageLength(n: nat): byte {
    n % 256
  }

  /** setData: the data go behind 7 bytes of header and fields, whatever the length has become. */
  function PublishOf(flags: byte, topicId: uint16, msgId: uint16, data: seq<byte>): SnMessage {
    var length := MessageLength(7 + |data|);
    if length == 7 + |data| then SnPublish(flags, topicId, msgId, data) else Overrun(Wire.TYPE_SN_PUBLISH, length)
  }

  /** setTopicName: the same behind 6 bytes. */
  function RegisterOf(topicId: uint16, name: Str): SnMessage {
    var length := MessageLength(6 + |name|);
    if length == 6 + |name| then SnRegister(topicId, 0, name) else Overrun(TYPE_SN_REGISTER, length)
  }

  // ---------- Upstream ----------

  /** The three tests with && on the flags are truth values: the first is never 2, the other two
      hold for any flag. */
  function UpstreamFlags(flags: byte): byte {
    (if SnQos(flags) != 0 then 2 else 0) + (if flags != 0 then 9 else 0)
  }

  function HandleSnPublish(n: Node, m: SnMessage): Handled
    requires m.SnPublish?
  {
    match NameOfId(n.topics, m.topicId)
    case Some(name) =>
      var mq := MqPublish(Publish(UpstreamFlags(m.flags), name, m.msgId, m.data));
      if m.msgId == 0 then Reply(n, [ToBroker(ForBroker(mq))])
      else Reply(
        n.(pubAcks := n.pubAcks + [AckObject(m.topicId, m.msgId)], waitedPubAck := Some(|n.pubAcks|)),
        [ToBroker(ForBroker(mq))])
    case None =>
      Reply(n, if m.msgId == 0 then [] else [ToClient(ForClient(SnPubAck(m.topicId, m.msgId, RC_INVALID_TOPIC_ID)))])
  }

  /** setDup, setRetain, setQos on flags that start as QoS 1. */
  function SubscribeFlags(flags: byte): byte {
    (if SnQos(flags) != 0 then 2 else 0)
    + (if HasBit(flags, FLAG_DUP) then 8 else 0)
    + (if HasBit(flags, FLAG_RETAIN) then 1 else 0)
  }

  function NextSnMsgId(id: byte): byte {
    if id == 255 then 1 else id + 1
  }

  /** setQos of a SUBACK. */
  function GrantedFlags(qos: byte): byte {
    if qos == 1 then 0x20 else 0
  }

  function HandleSnSubscribe(n: Node, m: SnMessage, env: Env): Handled
    requires m.SnSubscribe?
  {
    if m.flags % 4 == TYPE_RESERVED then
      Reply(n, if m.msgId == 0 then [] else [ToClient(ForClient(SnSuback(0, m.topicId, m.msgId, RC_IDENTIFIER_REJECTED)))])
    else if m.flags % 4 == TYPE_PREDEFINED then
      var rc := if m.topicId == TOPICID_PREDEFINED_TIME then RC_ACCEPTED else RC_IDENTIFIER_REJECTED;
      var suback := SnSuback(GrantedFlags(SnQos(m.flags)), m.topicId, m.msgId, rc);
      var ack := if m.msgId == 0 then [] else [ToClient(ForClient(suback))];
      if m.topicId == TOPICID_PREDEFINED_TIME then
        var id := NextSnMsgId(n.snMsgId);
        Reply(n.(snMsgId := id), ack + [ToClient(ForClient(PublishOf(1, TOPICID_PREDEFINED_TIME, id, env.time)))])
      else Reply(n, ack)
    else
      var made := CreateTopic(n.topics, m.name, env.objectBytes);
      var mq := MqSubscribe(Subscribe(SubscribeFlags(m.flags), m.msgId, m.name, SnQos(m.flags)));
      var n1 := n.(topics := made.table);
      Reply(
        if m.msgId == 0 then n1
        else n1.(subAcks := n.subAcks + [SubAckObject(0, AckObject(made.id, m.msgId))], waitedSubAck := Some(|n.subAcks|)),
        [ToBroker(ForBroker(mq))])
  }

  /** The id looked up is a member that only a predefined type sets, from bytes after the end of
      the message; for a normal topic it is 0. */
  function HandleSnUnsubscribe(n: Node, m: SnMessage, env: Env): Handled
    requires m.SnUnsubscribe?
  {
    var idType := m.flags % 4;
    var known := NameOfId(n.topics, if idType == TYPE_PREDEFINED then env.stray else 0).Some?;
    if idType == TYPE_RESERVED || (idType == TYPE_PREDEFINED && known) then
      Reply(n, if m.msgId == 0 then [] else [ToClient(ForClient(SnUnsuback(m.msgId)))])
    else
      var name := if idType == TYPE_SHORT || known then m.name else [];
      Reply(n, [ToBroker(ForBroker(MqUnsubscribe(Unsubscribe(2, m.msgId, name))))])
  }

  /** The object goes to the slot, and with no will wanted also to the queue. */
  function HandleSnConnect(n: Node, m: SnMessage): Handled
    requires m.SnConnect?
  {
    var k := |n.connects|;
    var clean := HasBit(m.flags, FLAG_CLEAN);
    var c := NewConnect(n.clientId, m.duration);
    var n1 := n.(connects := n.connects + [if clean then c.SetCleanSessionFlg() else c], connect := Some(k),
                 topics := if clean then NewTable() else n.topics);
    Reply(n1, [if HasBit(m.flags, FLAG_WILL) then ToClient(ForClient(SnWillTopicReq)) else ToBroker(ConnectAt(k))])
  }

  function HandleSnWillTopic(n: Node, m: SnMessage): Handled
    requires m.SnWillTopic?
  {
    match n.connect
    case None => Reply(n, [])
    case Some(k) =>
      Reply(n.(connects := n.connects[k := n.connects[k].SetWillTopic(m.topic).SetWillQosZero()]),
        [ToClient(ForClient(SnWillMsgReq))])
  }

  function HandleSnWillMsg(n: Node, m: SnMessage): Handled
    requires m.SnWillMsg?
  {
    match n.connect
    case None => Reply(n, [ToClient(ForClient(SnConnack(RC_CONGESTION)))])
    case Some(k) =>
      Reply(n.(connects := n.connects[k := n.connects[k].SetWillMessage(m.message)], connect := None),
        [ToBroker(ConnectAt(k))])
  }

  function HandleSnRegister(n: Node, m: SnMessage, env: Env): Handled
    requires m.SnRegister?
  {
    var made := CreateTopic(n.topics, m.name, env.objectBytes);
    Reply(n.(topics := made.table), [ToClient(ForClient(SnRegack(made.id, m.msgId, RC_ACCEPTED)))])
  }

  function HandleClient(n: Node, m: SnMessage, env: Env): Handled {
    match m
    case SnPublish(_, _, _, _) => HandleSnPublish(n, m)
    case SnSubscribe(_, _, _, _) => HandleSnSubscribe(n, m, env)
    case SnUnsubscribe(_, _, _) => HandleSnUnsubscribe(n, m, env)
    case SnPingReq => Reply(n, [ToBroker(ForBroker(MqPingReq))])
    case SnPubAck(_, msgId, _) => Reply(n, [ToBroker(ForBroker(MqPubAck(msgId)))])
    case SnConnect(_, _) => HandleSnConnect(n, m)
    case SnWillTopic(_) => HandleSnWillTopic(n, m)
    case SnWillMsg(_) => HandleSnWillMsg(n, m)
    case SnDisconnect => Reply(n, [ToBroker(ForBroker(MqDisconnect))])
    case SnRegister(_, _, _) => HandleSnRegister(n, m, env)
    case _ => Reply(n, [])
  }

  // ---------- Downstream ----------

  function HandlePubAck(n: Node, id: uint16): Handled {
    match n.waitedPubAck
    case Some(k) =>
      if n.pubAcks[k].msgId == id then Reply(n.(waitedPubAck := None), [ToClient(PubAckAt(k))]) else Reply(n, [])
    case None => Reply(n, [])
  }

  function HandleSubAck(n: Node, id: uint16, qos: byte): Handled {
    match n.waitedSubAck
    case Some(k) =>
      if n.subAcks[k].ids.msgId == id then
        Reply(n.(waitedSubAck := None, subAcks := n.subAcks[k := n.subAcks[k].(flags := GrantedFlags(qos))]),
          [ToClient(SubAckAt(k))])
      else Reply(n, [])
    case None => Reply(n, [])
  }

  /** A two-character topic is not looked up: its id is two bytes of the string object. */
  function DownstreamId(n: Node, topic: Str, env: Env): uint16 {
    if |topic| == 2 then env.ownBytes else GetTopicId(n.topics, topic)
  }

  function TypeBits(p: Publish): byte {
    if |p.topic| == 2 then TYPE_SHORT else 0
  }

  function QosBits(p: Publish): byte {
    if (p.flags / 2) % 4 == 1 then 0x20 else 0
  }

  /** isDup tests 0x80 of four bits; the retain bit sets dup. */
  function DupBits(p: Publish): byte {
    if HasBit(p.flags, 128) || HasBit(p.flags, 1) then 0x80 else 0
  }

  function DownstreamFlags(p: Publish): byte {
    TypeBits(p) + QosBits(p) + DupBits(p)
  }

  function HandlePublish(n: Node, p: Publish, env: Env): Handled {
    var known := DownstreamId(n, p.topic, env);
    if known != 0 then
      Reply(n, [ToClient(ForClient(PublishOf(DownstreamFlags(p), known, p.messageId, p.payload)))])
    else
      var made := CreateTopic(n.topics, p.topic, env.objectBytes);
      if made.id == 0 then Reply(n.(topics := made.table), [])
      else Reply(n.(topics := made.table),
        [ToClient(ForClient(RegisterOf(made.id, p.topic))),
         ToClient(ForClient(PublishOf(DownstreamFlags(p), made.id, p.messageId, p.payload)))])
  }

  function HandleBroker(n: Node, b: BrokerReceive.BrokerPacket, env: Env): Handled {
    match b
    case PubAck(id) => HandlePubAck(n, id)
    case PingResp => Reply(n, [ToClient(ForClient(SnPingResp))])
    case SubAck(id, qos) => HandleSubAck(n, id, qos)
    case UnsubAck(id) => Reply(n, [ToClient(ForClient(SnUnsuback(id)))])
    case ConnAck(rc) => Reply(n, [ToClient(ForClient(SnConnack(if rc != 0 then RC_NOT_SUPPORTED else RC_ACCEPTED)))])
    case PublishPacket(p) => HandlePublish(n, p, env)
  }

  /** The dispatch in run(). */
  function Handle(n: Node, item: Item): Handled {
    match item
    case FromClient(sn, env) => HandleClient(n, sn, env)
    case FromBroker(packet, env) => HandleBroker(n, packet, env)
    case _ => Reply(n, [])
  }
}
