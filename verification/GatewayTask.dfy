/** The handlers of GatewayControlTask as they run: on a ClientNode that they change in place.
    Each is proved equal to its function in Gateway. */
module GatewayTask {
  import opened Wrappers
  import opened Bytes
  import opened TopicRegistry
  import opened MqttCodec
  import opened Pipeline
  import opened Gateway
  import BrokerReceive

  /** Registry, slots and send queues of a client. A pointer to a CONNECT, PUBACK or SUBACK object
      is its number in the order of allocation; `connects`, `pubAcks` and `subAcks` are the memory
      they point to. `sent` is both send queues, in the order of the pushes. */
  class ClientNode {
    const nodeId: Str
    var topics: Topics
    var snMsgId: byte
    var connects: seq<Connect>
    var mqttConnect: Option<nat>
    var pubAcks: seq<AckObject>
    var waitedPubAck: Option<nat>
    var subAcks: seq<SubAckObject>
    var waitedSubAck: Option<nat>
    var sent: seq<Out<Item>>

    ghost predicate Valid()
      reads this, topics
    {
      && topics.Valid()
      && InRange(mqttConnect, |connects|) && InRange(waitedPubAck, |pubAcks|) && InRange(waitedSubAck, |subAcks|)
    }

    ghost function State(): Node
      requires Valid()
      reads this, topics
    {
      NodeData(nodeId, topics.Contents(), snMsgId, connects, mqttConnect, pubAcks, waitedPubAck, subAcks, waitedSubAck)
    }

    /** The state and the queues are those after this reply. */
    ghost predicate Did(before: seq<Out<Item>>, r: Handled)
      reads this, topics
    {
      Valid() && State() == r.st && sent == before + r.outs
    }

    constructor (id: Str)
      ensures Valid() && fresh(topics) && State() == NewNode(id) && sent == []
    {
      nodeId := id;
      topics := new Topics();
      snMsgId := 0;
      connects, mqttConnect, pubAcks, waitedPubAck, subAcks, waitedSubAck := [], None, [], None, [], None;
      sent := [];
    }

    /** Push and post. */
    method ToClientQueue(m: Item)
      modifies this`sent
      ensures sent == old(sent) + [ToClient(m)]
    {
      sent := sent + [ToClient(m)];
    }

    method ToBrokerQueue(m: Item)
      modifies this`sent
      ensures sent == old(sent) + [ToBroker(m)]
    {
      sent := sent + [ToBroker(m)];
    }

    method GetNextSnMsgId() returns (id: byte)
      modifies this`snMsgId
      ensures id == snMsgId == NextSnMsgId(old(snMsgId))
    {
      snMsgId := (snMsgId + 1) % 256;
      if snMsgId == 0 {
        snMsgId := snMsgId + 1;
      }
      id := snMsgId;
    }
  }

  method HandleSnPublish(clnode: ClientNode, m: SnMessage)
    requires clnode.Valid() && m.SnPublish?
    modifies clnode
    ensures clnode.topics == old(clnode.topics)
    ensures clnode.Did(old(clnode.sent), Gateway.HandleSnPublish(old(clnode.State()), m))
  {
    var tp := clnode.topics.GetTopicByTopicId(m.topicId);
    if tp.Some? {
      var messageId: uint16 := 0;
      if m.msgId != 0 {
        clnode.waitedPubAck := Some(|clnode.pubAcks|);
        clnode.pubAcks := clnode.pubAcks + [AckObject(m.topicId, m.msgId)];
        messageId := m.msgId;
      }
      var flags: byte := 0;
      if SnQos(m.flags) != 0 {
        flags := 2;
      }
      if m.flags != 0 {
        flags := flags + 8;
        flags := flags + 1;
      }
      clnode.ToBrokerQueue(ForBroker(MqPublish(Publish(flags, clnode.topics.topics[tp.value].name, messageId, m.data))));
    } else if m.msgId != 0 {
      clnode.ToClientQueue(ForClient(SnPubAck(m.topicId, m.msgId, RC_INVALID_TOPIC_ID)));
    }
  }

  method HandleSnSubscribe(clnode: ClientNode, m: SnMessage, env: Env)
    requires clnode.Valid() && m.SnSubscribe?
    modifies clnode, clnode.topics
    ensures clnode.topics == old(clnode.topics)
    ensures clnode.Did(old(clnode.sent), Gateway.HandleSnSubscribe(old(clnode.State()), m, env))
  {
    var topicIdType := m.flags % 4;
    if topicIdType == TYPE_RESERVED {
      if m.msgId != 0 {
        clnode.ToClientQueue(ForClient(SnSuback(0, m.topicId, m.msgId, RC_IDENTIFIER_REJECTED)));
      }
    } else if topicIdType == TYPE_PREDEFINED {
      SubscribePredefined(clnode, m, env);
    } else {
      SubscribeName(clnode, m, env);
    }
  }

  method SubscribePredefined(clnode: ClientNode, m: SnMessage, env: Env)
    requires clnode.Valid() && m.SnSubscribe? && m.flags % 4 == TYPE_PREDEFINED
    modifies clnode
    ensures clnode.topics == old(clnode.topics)
    ensures clnode.Did(old(clnode.sent), Gateway.HandleSnSubscribe(old(clnode.State()), m, env))
  {
    if m.msgId != 0 {
      var rc := RC_IDENTIFIER_REJECTED;
      if m.topicId == TOPICID_PREDEFINED_TIME {
        rc := RC_ACCEPTED;
      }
      clnode.ToClientQueue(ForClient(SnSuback(GrantedFlags(SnQos(m.flags)), m.topicId, m.msgId, rc)));
    }
    if m.topicId == TOPICID_PREDEFINED_TIME {
      var id := clnode.GetNextSnMsgId();
      clnode.ToClientQueue(ForClient(PublishOf(1, TOPICID_PREDEFINED_TIME, id, env.time)));
    }
  }

  method SubscribeName(clnode: ClientNode, m: SnMessage, env: Env)
    requires clnode.Valid() && m.SnSubscribe? && m.flags % 4 != TYPE_PREDEFINED && m.flags % 4 != TYPE_RESERVED
    modifies clnode, clnode.topics
    ensures clnode.topics == old(clnode.topics)
    ensures clnode.Did(old(clnode.sent), Gateway.HandleSnSubscribe(old(clnode.State()), m, env))
  {
    var tpId: uint16;
    var tp := clnode.topics.GetTopicByName(m.name);
    if tp.Some? {
      tpId := clnode.topics.topics[tp.value].id;
    } else {
      tpId := clnode.topics.Create(m.name, env.objectBytes);
    }
    if m.msgId != 0 {
      clnode.waitedSubAck := Some(|clnode.subAcks|);
      clnode.subAcks := clnode.subAcks + [SubAckObject(0, AckObject(tpId, m.msgId))];
    }
    clnode.ToBrokerQueue(ForBroker(MqSubscribe(Subscribe(SubscribeFlags(m.flags), m.msgId, m.name, SnQos(m.flags)))));
  }

  method HandleSnUnsubscribe(clnode: ClientNode, m: SnMessage, env: Env)
    requires clnode.Valid() && m.SnUnsubscribe?
    modifies clnode
    ensures clnode.topics == old(clnode.topics)
    ensures clnode.Did(old(clnode.sent), Gateway.HandleSnUnsubscribe(old(clnode.State()), m, env))
  {
    var topicIdType := m.flags % 4;
    var rejected := topicIdType == TYPE_RESERVED;
    var name: Str := [];
    if topicIdType == TYPE_SHORT {
      name := m.name;
    } else if !rejected {
      var tp := clnode.topics.GetTopicByTopicId(if topicIdType == TYPE_PREDEFINED then env.stray else 0);
      if tp.Some? {
        rejected := topicIdType == TYPE_PREDEFINED;
        name := m.name;
      }
    }
    if !rejected {
      clnode.ToBrokerQueue(ForBroker(MqUnsubscribe(Unsubscribe(2, m.msgId, name))));
    } else if m.msgId != 0 {
      clnode.ToClientQueue(ForClient(SnUnsuback(m.msgId)));
    }
  }

  /** The object is filled in after its pointer is in the slot. */
  method HandleSnConnect(clnode: ClientNode, m: SnMessage)
    requires clnode.Valid() && m.SnConnect?
    modifies clnode
    ensures clnode.topics == old(clnode.topics) || fresh(clnode.topics)
    ensures clnode.Did(old(clnode.sent), Gateway.HandleSnConnect(old(clnode.State()), m))
  {
    var k := |clnode.connects|;
    clnode.connects := clnode.connects + [NewConnect(clnode.nodeId, m.duration)];
    clnode.mqttConnect := Some(k);
    if HasBit(m.flags, FLAG_CLEAN) {
      var topics := new Topics();
      clnode.topics := topics;
      clnode.connects := clnode.connects[k := clnode.connects[k].SetCleanSessionFlg()];
    }
    if HasBit(m.flags, FLAG_WILL) {
      clnode.ToClientQueue(ForClient(SnWillTopicReq));
    } else {
      clnode.ToBrokerQueue(ConnectAt(clnode.mqttConnect.value));
    }
  }

  method HandleSnWillTopic(clnode: ClientNode, m: SnMessage)
    requires clnode.Valid() && m.SnWillTopic?
    modifies clnode
    ensures clnode.topics == old(clnode.topics)
    ensures clnode.Did(old(clnode.sent), Gateway.HandleSnWillTopic(old(clnode.State()), m))
  {
    if clnode.mqttConnect.Some? {
      var k := clnode.mqttConnect.value;
      clnode.connects := clnode.connects[k := clnode.connects[k].SetWillTopic(m.topic)];
      clnode.connects := clnode.connects[k := clnode.connects[k].SetWillQosZero()];
      clnode.ToClientQueue(ForClient(SnWillMsgReq));
    }
  }

  method HandleSnWillMsg(clnode: ClientNode, m: SnMessage)
    requires clnode.Valid() && m.SnWillMsg?
    modifies clnode
    ensures clnode.topics == old(clnode.topics)
    ensures clnode.Did(old(clnode.sent), Gateway.HandleSnWillMsg(old(clnode.State()), m))
  {
    if clnode.mqttConnect.Some? {
      var k := clnode.mqttConnect.value;
      clnode.connects := clnode.connects[k := clnode.connects[k].SetWillMessage(m.message)];
      clnode.ToBrokerQueue(ConnectAt(k));
      clnode.mqttConnect := None;
    } else {
      clnode.ToClientQueue(ForClient(SnConnack(RC_CONGESTION)));
    }
  }

  method HandleSnRegister(clnode: ClientNode, m: SnMessage, env: Env)
    requires clnode.Valid() && m.SnRegister?
    modifies clnode, clnode.topics
    ensures clnode.topics == old(clnode.topics)
    ensures clnode.Did(old(clnode.sent), Gateway.HandleSnRegister(old(clnode.State()), m, env))
  {
    var tpId := clnode.topics.Create(m.name, env.objectBytes);
    clnode.ToClientQueue(ForClient(SnRegack(tpId, m.msgId, RC_ACCEPTED)));
  }

  method HandlePuback(clnode: ClientNode, id: uint16)
    requires clnode.Valid()
    modifies clnode
    ensures clnode.topics == old(clnode.topics)
    ensures clnode.Did(old(clnode.sent), Gateway.HandlePubAck(old(clnode.State()), id))
  {
    var snMsg := clnode.waitedPubAck;
    if snMsg.Some? {
      if clnode.pubAcks[snMsg.value].msgId == id {
        clnode.waitedPubAck := None;
        clnode.ToClientQueue(PubAckAt(snMsg.value));
      }
    }
  }

  method HandleSuback(clnode: ClientNode, id: uint16, qos: byte)
    requires clnode.Valid()
    modifies clnode
    ensures clnode.topics == old(clnode.topics)
    ensures clnode.Did(old(clnode.sent), Gateway.HandleSubAck(old(clnode.State()), id, qos))
  {
    var snMsg := clnode.waitedSubAck;
    if snMsg.Some? {
      if clnode.subAcks[snMsg.value].ids.msgId == id {
        clnode.waitedSubAck := None;
        clnode.subAcks := clnode.subAcks[snMsg.value := clnode.subAcks[snMsg.value].(flags := GrantedFlags(qos))];
        clnode.ToClientQueue(SubAckAt(snMsg.value));
      }
    }
  }

  method HandlePublish(clnode: ClientNode, p: Publish, env: Env)
    requires clnode.Valid()
    modifies clnode, clnode.topics
    ensures clnode.topics == old(clnode.topics)
    ensures clnode.Did(old(clnode.sent), Gateway.HandlePublish(old(clnode.State()), p, env))
  {
    var tpId: uint16;
    if |p.topic| == 2 {
      tpId := env.ownBytes;
    } else {
      tpId := clnode.topics.GetId(p.topic);
    }
    if tpId == 0 {
      tpId := clnode.topics.Create(p.topic, env.objectBytes);
      if tpId > 0 {
        clnode.ToClientQueue(ForClient(RegisterOf(tpId, p.topic)));
      } else {
        return;
      }
    }
    clnode.ToClientQueue(ForClient(PublishOf(DownstreamFlags(p), tpId, p.messageId, p.payload)));
  }

  /** The two dispatches in run(), for an event of this client. */
  method Run(clnode: ClientNode, item: Item)
    requires clnode.Valid()
    modifies clnode, clnode.topics
    ensures clnode.topics == old(clnode.topics) || fresh(clnode.topics)
    ensures clnode.Did(old(clnode.sent), Gateway.Handle(old(clnode.State()), item))
  {
    match item {
      case FromClient(m, env) => FromClientRecv(clnode, m, env);
      case FromBroker(packet, env) => FromBrokerRecv(clnode, packet, env);
      case _ =>
    }
  }

  method FromClientRecv(clnode: ClientNode, m: SnMessage, env: Env)
    requires clnode.Valid()
    modifies clnode, clnode.topics
    ensures clnode.topics == old(clnode.topics) || fresh(clnode.topics)
    ensures clnode.Did(old(clnode.sent), Gateway.HandleClient(old(clnode.State()), m, env))
  {
    match m {
      case SnPublish(_, _, _, _) => HandleSnPublish(clnode, m);
      case SnSubscribe(_, _, _, _) => HandleSnSubscribe(clnode, m, env);
      case SnUnsubscribe(_, _, _) => HandleSnUnsubscribe(clnode, m, env);
      case SnPingReq => clnode.ToBrokerQueue(ForBroker(MqPingReq));
      case SnPubAck(_, msgId, _) => clnode.ToBrokerQueue(ForBroker(MqPubAck(msgId)));
      case SnConnect(_, _) => HandleSnConnect(clnode, m);
      case SnWillTopic(_) => HandleSnWillTopic(clnode, m);
      case SnWillMsg(_) => HandleSnWillMsg(clnode, m);
      case SnDisconnect => clnode.ToBrokerQueue(ForBroker(MqDisconnect));
      case SnRegister(_, _, _) => HandleSnRegister(clnode, m, env);
      case _ =>
    }
  }

  method FromBrokerRecv(clnode: ClientNode, packet: BrokerReceive.BrokerPacket, env: Env)
    requires clnode.Valid()
    modifies clnode, clnode.topics
    ensures clnode.topics == old(clnode.topics)
    ensures clnode.Did(old(clnode.sent), Gateway.HandleBroker(old(clnode.State()), packet, env))
  {
    match packet {
      case PubAck(id) => HandlePuback(clnode, id);
      case PingResp => clnode.ToClientQueue(ForClient(SnPingResp));
      case SubAck(id, qos) => HandleSuback(clnode, id, qos);
      case UnsubAck(id) => clnode.ToClientQueue(ForClient(SnUnsuback(id)));
      case ConnAck(rc) =>
        if rc != 0 {
          clnode.ToClientQueue(ForClient(SnConnack(RC_NOT_SUPPORTED)));
        } else {
          clnode.ToClientQueue(ForClient(SnConnack(RC_ACCEPTED)));
        }
      case PublishPacket(p) => HandlePublish(clnode, p, env);
    }
  }

}
