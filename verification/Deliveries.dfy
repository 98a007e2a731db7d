/** What a client gets over the radio for a PUBLISH of the broker, over runs of the handlers. */
module Deliveries {
  import opened Wrappers
  import opened Bytes
  import opened TopicRegistry
  import opened MqttCodec
  import opened Pipeline
  import opened Gateway
  import opened GatewayRuns
  import opened TopicAgreement
  import opened Radio
  import SnPublish
  import BrokerReceive

  /** The peer can get the broker's payload from this message, under this id and the broker's
      message id. */
  ghost predicate GetsPayload(peer: Peer, a: Address, m: SnMessage, p: Publish, t: uint16) {
    exists air :: Gets(peer, a, m, air) && IsPublish(air, DownstreamFlags(p), t, p.messageId, p.payload)
  }

  /** It can get this id for the broker's topic name. */
  ghost predicate GetsName(peer: Peer, a: Address, m: SnMessage, p: Publish, t: uint16) {
    exists air :: Gets(peer, a, m, air) && IsRegister(air, t, p.topic)
  }

  ghost predicate Delivered(peer: Peer, a: Address, outs: seq<Out<Item>>, p: Publish, t: uint16) {
    exists m :: ToClient(ForClient(m)) in outs && GetsPayload(peer, a, m, p, t)
  }

  ghost predicate Named(peer: Peer, a: Address, outs: seq<Out<Item>>, p: Publish, t: uint16) {
    exists m :: ToClient(ForClient(m)) in outs && GetsName(peer, a, m, p, t)
  }

  /** What the bytes of a PUBLISH say. */
  lemma PublishSays(m: SnMessage, p: Publish, flags: byte, topicId: uint16, t: uint16, air: seq<byte>)
    requires PublishWith(m, flags, topicId, p.messageId, p.payload) && SentAs(m, air)
    ensures !IsRegister(air, t, p.topic)
    ensures IsPublish(air, flags, t, p.messageId, p.payload) <==> t == topicId && |p.payload| <= 248
    ensures IsPublish(air, flags, t, p.messageId, p.payload) ==> |air| == 7 + |p.payload|
  {
    if |p.payload| <= 248 {
      SnPublish.DecodingOfEncoding(SnPublish.Content(SnPublish.TYPE_SN_PUBLISH, flags, topicId, p.messageId, p.payload));
    }
  }

  lemma RegisterReads(m: SnMessage, topicId: uint16, name: Str, air: seq<byte>)
    requires RegisterWith(m, topicId, name) && SentAs(m, air)
    ensures |air| >= 2 ==> air[1] == 0x0a
    ensures if |name| <= 249 then IsRegister(air, topicId, name) else |air| < 256
  {
    if |name| <= 249 {
      assert RegisterBytes(topicId, 0, name)[6..] == name;
    }
  }

  lemma ReadsOne(air: seq<byte>, p: Publish, flags: byte, topicId: uint16, t: uint16)
    requires |air| >= 2 ==> air[1] == 0x0a
    requires if |p.topic| <= 249 then IsRegister(air, topicId, p.topic) else |air| < 256
    ensures !IsPublish(air, flags, t, p.messageId, p.payload)
    ensures IsRegister(air, t, p.topic) <==> t == topicId && |p.topic| <= 249
    ensures IsRegister(air, t, p.topic) ==> |air| == 6 + |p.topic|
  {
  }

  lemma RegisterSays(m: SnMessage, p: Publish, flags: byte, topicId: uint16, t: uint16, air: seq<byte>)
    requires RegisterWith(m, topicId, p.topic) && SentAs(m, air)
    ensures !IsPublish(air, flags, t, p.messageId, p.payload)
    ensures IsRegister(air, t, p.topic) <==> t == topicId && |p.topic| <= 249
    ensures IsRegister(air, t, p.topic) ==> |air| == 6 + |p.topic|
  {
    RegisterReads(m, topicId, p.topic, air);
    ReadsOne(air, p, flags, topicId, t);
  }

  lemma PayloadIff(peer: Peer, a: Address, p: Publish, m: SnMessage, topicId: uint16, t: uint16)
    requires PublishWith(m, DownstreamFlags(p), topicId, p.messageId, p.payload)
    ensures GetsPayload(peer, a, m, p, t) <==> t == topicId && 7 + |p.payload| <= Limit(peer)
    ensures !GetsName(peer, a, m, p, t)
  {
    if GetsPayload(peer, a, m, p, t) {
      var air :| Gets(peer, a, m, air) && IsPublish(air, DownstreamFlags(p), t, p.messageId, p.payload);
      GetsIff(peer, a, m, air);
      PublishSays(m, p, DownstreamFlags(p), topicId, t, air);
    }
    if GetsName(peer, a, m, p, t) {
      var air :| Gets(peer, a, m, air) && IsRegister(air, t, p.topic);
      GetsIff(peer, a, m, air);
      PublishSays(m, p, DownstreamFlags(p), topicId, t, air);
    }
    if t == topicId && 7 + |p.payload| <= Limit(peer) {
      PublishGets(peer, a, p, m, topicId);
    }
  }

  lemma PublishGets(peer: Peer, a: Address, p: Publish, m: SnMessage, topicId: uint16)
    requires PublishWith(m, DownstreamFlags(p), topicId, p.messageId, p.payload) && 7 + |p.payload| <= Limit(peer)
    ensures GetsPayload(peer, a, m, p, topicId)
  {
    var c := SnPublish.Content(SnPublish.TYPE_SN_PUBLISH, DownstreamFlags(p), topicId, p.messageId, p.payload);
    var air := SnPublish.Encoding(c);
    GetsIff(peer, a, m, air);
    PublishSays(m, p, DownstreamFlags(p), topicId, topicId, air);
  }

  lemma NameIff(peer: Peer, a: Address, p: Publish, m: SnMessage, topicId: uint16, t: uint16)
    requires RegisterWith(m, topicId, p.topic)
    ensures GetsName(peer, a, m, p, t) <==> t == topicId && 6 + |p.topic| <= Limit(peer)
    ensures !GetsPayload(peer, a, m, p, t)
  {
    if GetsName(peer, a, m, p, t) {
      var air :| Gets(peer, a, m, air) && IsRegister(air, t, p.topic);
      GetsIff(peer, a, m, air);
      RegisterSays(m, p, DownstreamFlags(p), topicId, t, air);
    }
    if GetsPayload(peer, a, m, p, t) {
      var air :| Gets(peer, a, m, air) && IsPublish(air, DownstreamFlags(p), t, p.messageId, p.payload);
      GetsIff(peer, a, m, air);
      RegisterSays(m, p, DownstreamFlags(p), topicId, t, air);
    }
    if t == topicId && 6 + |p.topic| <= Limit(peer) {
      RegisterGets(peer, a, p, m, topicId);
    }
  }

  lemma RegisterGets(peer: Peer, a: Address, p: Publish, m: SnMessage, topicId: uint16)
    requires RegisterWith(m, topicId, p.topic) && 6 + |p.topic| <= Limit(peer)
    ensures GetsName(peer, a, m, p, topicId)
  {
    var air := RegisterBytes(topicId, 0, p.topic);
    GetsIff(peer, a, m, air);
    RegisterSays(m, p, DownstreamFlags(p), topicId, topicId, air);
  }

  /** The payload gets through under this id and no other, the name is told for this id and no
      other, each within its limit. */
  ghost predicate ArrivesUnder(
    peer: Peer, a: Address, outs: seq<Out<Item>>, p: Publish, topicId: uint16, queued: bool, named: bool)
  {
    forall t: uint16 ::
      && (Delivered(peer, a, outs, p, t) <==> t == topicId && queued && |p.payload| <= if peer.Any? then 235 else 104)
      && (Named(peer, a, outs, p, t) <==> t == topicId && named && |p.topic| <= if peer.Any? then 236 else 105)
  }

  lemma MessagesOf(p: Publish, outs: seq<Out<Item>>, topicId: uint16, registered: bool)
    returns (publish: SnMessage, register: SnMessage)
    requires Delivers(p, outs, topicId, registered)
    ensures PublishWith(publish, DownstreamFlags(p), topicId, p.messageId, p.payload)
    ensures registered ==> RegisterWith(register, topicId, p.topic)
    ensures forall m: SnMessage :: ToClient(ForClient(m)) in outs <==> m == publish || (registered && m == register)
  {
    publish, register := outs[|outs| - 1].y.out, outs[0].y.out;
    assert ToClient(ForClient(publish)) in outs && ToClient(ForClient(register)) in outs;
  }

  lemma DeliversIff(peer: Peer, a: Address, p: Publish, outs: seq<Out<Item>>, topicId: uint16, registered: bool)
    requires Delivers(p, outs, topicId, registered)
    ensures ArrivesUnder(peer, a, outs, p, topicId, true, registered)
  {
    var publish, register := MessagesOf(p, outs, topicId, registered);
    assert ToClient(ForClient(publish)) in outs && (registered ==> ToClient(ForClient(register)) in outs);
    forall t: uint16
      ensures Delivered(peer, a, outs, p, t) <==> t == topicId && 7 + |p.payload| <= Limit(peer)
      ensures Named(peer, a, outs, p, t) <==> t == topicId && registered && 6 + |p.topic| <= Limit(peer)
    {
      PayloadIff(peer, a, p, publish, topicId, t);
      if registered {
        NameIff(peer, a, p, register, topicId, t);
      }
    }
  }

  /** What handlePublish queues, for any topic but a two-character one it has to create. */
  lemma HandedOn(n: Node, p: Publish, env: Env) returns (topicId: uint16)
    requires InOrder(n.topics) && Ordinary(FromBroker(BrokerReceive.PublishPacket(p), env))
    ensures
      var r := Handle(n, FromBroker(BrokerReceive.PublishPacket(p), env));
      var known := DownstreamId(n, p.topic, env) != 0;
      if !known && |n.topics.topics| == MAX_TOPIC_COUNT then r.outs == []
      else Delivers(p, r.outs, topicId, !known) && StandsFor(topicId, p.topic, env, r.st.topics)
  {
    topicId := DownstreamId(n, p.topic, env);
    if |p.topic| != 2 {
      PublishStep(n, p, env);
      topicId := GetTopicId(Handle(n, FromBroker(BrokerReceive.PublishPacket(p), env)).st.topics, p.topic);
    }
  }

  /** The id is the registry's for the name; a two-character name goes under two bytes of the
      string object. */
  predicate StandsFor(topicId: uint16, topic: Str, env: Env, now: Table) {
    if |topic| == 2 then topicId == env.ownBytes else NameOfId(now, topicId) == Some(topic)
  }

  /** The payload gets through if the name is known or there is room, the name if it is unknown and
      there is room; and then the id stands for the topic. */
  ghost predicate Arrives(
    peer: Peer, a: Address, n: Node, p: Publish, env: Env, outs: seq<Out<Item>>, now: Table, topicId: uint16)
  {
    var known, room := DownstreamId(n, p.topic, env) != 0, |n.topics.topics| < MAX_TOPIC_COUNT;
    && ArrivesUnder(peer, a, outs, p, topicId, known || room, !known && room)
    && (known || room ==> StandsFor(topicId, p.topic, env, now))
  }

  lemma DeliveredStep(n: Node, p: Publish, env: Env, a: Address, peer: Peer) returns (topicId: uint16)
    requires InOrder(n.topics) && Ordinary(FromBroker(BrokerReceive.PublishPacket(p), env))
    ensures
      var r := Handle(n, FromBroker(BrokerReceive.PublishPacket(p), env));
      Arrives(peer, a, n, p, env, r.outs, r.st.topics, topicId)
  {
    topicId := HandedOn(n, p, env);
    var outs := Handle(n, FromBroker(BrokerReceive.PublishPacket(p), env)).outs;
    var known, room := DownstreamId(n, p.topic, env) != 0, |n.topics.topics| < MAX_TOPIC_COUNT;
    if known || room {
      DeliversIff(peer, a, p, outs, topicId, !known);
    }
  }

  lemma ArrivesStill(
    peer: Peer, a: Address, n: Node, p: Publish, env: Env, outs: seq<Out<Item>>, now: Table, topicId: uint16, later: Table)
    requires Arrives(peer, a, n, p, env, outs, now, topicId)
    requires NameOfId(now, topicId).Some? ==> NameOfId(later, topicId) == NameOfId(now, topicId)
    ensures Arrives(peer, a, n, p, env, outs, later, topicId)
  {
  }

  /** In any run: the broker's payload gets over the radio to the client if and only if the name is
      known or there is room for it, and the payload has at most 235 bytes; it comes under one id,
      which stands for the topic until the next clean session. A REGISTER that tells the name for
      that id gets there if and only if the name is unknown, there is room, and it has at most 236
      bytes. Where the frame is read by a decoder like the gateway's own, the limits are 104 and
      105. */
  lemma DeliveredIff(id: Str, log: seq<Item>, n: nat, later: nat, a: Address, peer: Peer)
    requires AllOrdinary(log) && n < later <= |log| && SameSession(log, n + 1, later)
    requires log[n].FromBroker? && log[n].packet.PublishPacket?
    ensures
      exists topicId: uint16 ::
        Arrives(peer, a, At(id, log, n), log[n].packet.p, log[n].env, OutsAt(id, log, n),
          At(id, log, later).topics, topicId)
  {
    var p, env, s := log[n].packet.p, log[n].env, At(id, log, n);
    RegistryInOrder(id, log, n);
    var topicId := DeliveredStep(s, p, env, a, peer);
    var now := At(id, log, n + 1).topics;
    if NameOfId(now, topicId).Some? {
      IdsLast(id, log, n + 1, later, topicId);
    }
    ArrivesStill(peer, a, s, p, env, OutsAt(id, log, n), now, topicId, At(id, log, later).topics);
  }
}
