/** What the broker can make of the packets that the handlers forward, and whether they fit the
    buffer they are serialized into. */
module Upstream {
  import opened Wrappers
  import opened Bytes
  import opened TopicRegistry
  import opened RemainingLengths
  import opened MqttCodec
  import opened MqttReference
  import opened Pipeline
  import opened Gateway
  import BrokerReceive

  /** The sending task serializes into a buffer of this many bytes, whatever the packet. */
  const BUFFER := BrokerReceive.SOCKET_MAXBUFFER_LENGTH

  /** A packet with this body fits up to 497 bytes of it. */
  lemma PacketFitsIff(first: byte, body: seq<byte>)
    ensures |Packet(first, body)| <= BUFFER <==> |body| <= 497
  {
    EncodeSize(|body| % 65536);
    if |body| < 65536 {
      assert |body| % 65536 == |body|;
    }
  }

  /** A PUBLISH on a registered id is forwarded with its name, message id and data. A reader of the
      standard gets them back if and only if the client's QoS bits and its message id are not 0; it
      fits the buffer if and only if name and data have at most 493 bytes together. */
  lemma ForwardedPublishIff(n: Node, m: SnMessage, env: Env, name: Str) returns (p: Publish)
    requires m.SnPublish? && NameOfId(n.topics, m.topicId) == Some(name) && |name| + |m.data| + 4 < 65536
    ensures Handle(n, FromClient(m, env)).outs == [ToBroker(ForBroker(MqPublish(p)))]
    ensures p.topic == name && p.messageId == m.msgId && p.payload == m.data
    ensures ReadPublish(SerializePublish(p)) == Some(Meant(p)) <==> SnQos(m.flags) != 0 && m.msgId != 0
    ensures |SerializePublish(p)| <= BUFFER <==> |name| + |m.data| <= 493
  {
    p := Publish(UpstreamFlags(m.flags), name, m.msgId, m.data);
    UpstreamQos(m.flags);
    PublishLayoutIff(p);
    PacketFitsIff(TYPE_PUBLISH + p.flags % 16, PublishBody(p));
  }

  lemma UpstreamQos(flags: byte)
    ensures (UpstreamFlags(flags) / 2) % 4 == if SnQos(flags) != 0 then 1 else 0
  {
  }

  lemma SubscribeQos(flags: byte)
    ensures (SubscribeFlags(flags) / 2) % 4 == if SnQos(flags) != 0 then 1 else 0
  {
  }

  /** A SUBSCRIBE of a name is forwarded with its message id, name and QoS. Section 3.8 wants the
      packet sent with QoS 1, which setQos gives it only for a client that asks for more than 0. So
      a reader of the standard gets it if and only if the client asks for QoS 1 or 2, with a message
      id that is not 0; it fits the buffer if and only if the name has at most 492 bytes. */
  lemma ForwardedSubscribeIff(n: Node, m: SnMessage, env: Env) returns (s: Subscribe)
    requires m.SnSubscribe? && m.flags % 4 !in {TYPE_PREDEFINED, TYPE_RESERVED} && |m.name| + 5 < 65536
    ensures Handle(n, FromClient(m, env)).outs == [ToBroker(ForBroker(MqSubscribe(s)))]
    ensures s.messageId == m.msgId && s.topic == m.name && s.qos == SnQos(m.flags)
    ensures ReadSubscribe(SerializeSubscribe(s)) == Some((m.msgId, m.name, SnQos(m.flags) as byte))
      <==> SnQos(m.flags) in {1, 2} && m.msgId != 0
    ensures |SerializeSubscribe(s)| <= BUFFER <==> |m.name| <= 492
  {
    s := Subscribe(SubscribeFlags(m.flags), m.msgId, m.name, SnQos(m.flags));
    SubscribeQos(m.flags);
    SubscribeLayoutIff(s);
    PacketFitsIff(TYPE_SUBSCRIBE + s.flags % 16, SubscribeBody(s));
  }

  /** The type says two characters; or it says a name, and some topic happens to have id 0. */
  ghost predicate KeepsName(t: Table, m: SnMessage)
    requires m.SnUnsubscribe?
  {
    m.flags % 4 == 2 || (m.flags % 4 == 0 && exists tp | tp in t.topics :: tp.id == 0)
  }

  /** Whatever UNSUBSCRIBE is forwarded, a reader of the standard gets its message id and topic if
      and only if that id is not 0; it fits the buffer up to 493 bytes of name. */
  lemma ForwardedUnsubscribeIff(n: Node, m: SnMessage, env: Env, u: Unsubscribe)
    requires m.SnUnsubscribe? && ToBroker(ForBroker(MqUnsubscribe(u))) in Handle(n, FromClient(m, env)).outs
    requires |u.topic| + 4 < 65536
    ensures u.messageId == m.msgId && u.topic == if KeepsName(n.topics, m) then m.name else []
    ensures ReadUnsubscribe(SerializeUnsubscribe(u)) == Some((u.messageId, u.topic)) <==> m.msgId != 0
    ensures |SerializeUnsubscribe(u)| <= BUFFER <==> |u.topic| <= 493
  {
    UnsubscribeFields(n, m, env, u);
    UnsubscribeReads(u);
  }

  lemma UnsubscribeReads(u: Unsubscribe)
    requires u.flags == 2 && |u.topic| + 4 < 65536
    ensures ReadUnsubscribe(SerializeUnsubscribe(u)) == Some((u.messageId, u.topic)) <==> u.messageId != 0
    ensures |SerializeUnsubscribe(u)| <= BUFFER <==> |u.topic| <= 493
  {
    UnsubscribeLayoutIff(u);
    PacketFitsIff(TYPE_UNSUBSCRIBE + u.flags % 16, UnsubscribeBody(u));
  }

  lemma UnsubscribeFields(n: Node, m: SnMessage, env: Env, u: Unsubscribe)
    requires m.SnUnsubscribe? && ToBroker(ForBroker(MqUnsubscribe(u))) in Handle(n, FromClient(m, env)).outs
    ensures u.flags == 2 && u.messageId == m.msgId && u.topic == if KeepsName(n.topics, m) then m.name else []
  {
  }
}
