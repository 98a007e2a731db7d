/** Which messages the handlers send, and on what, over any run for one client: for every kind of
    message but the acknowledgement objects, CONNECT and what goes out for a broker PUBLISH. */
module Answers {
  import opened Wrappers
  import opened Bytes
  import opened TopicRegistry
  import opened MqttCodec
  import opened Pipeline
  import opened Gateway
  import opened GatewayRuns
  import WillHandshake
  import BrokerReceive

  ghost predicate Told(outs: seq<Out<Item>>, m: SnMessage) {
    ToClient(ForClient(m)) in outs
  }

  ghost predicate Forwarded(outs: seq<Out<Item>>, m: MqMessage) {
    ToBroker(ForBroker(m)) in outs
  }

  /** The message, and nothing else to anyone. */
  ghost predicate OnlyTold(outs: seq<Out<Item>>, m: SnMessage) {
    outs == [ToClient(ForClient(m))]
  }

  ghost predicate OnlyForwarded(outs: seq<Out<Item>>, m: MqMessage) {
    outs == [ToBroker(ForBroker(m))]
  }

  predicate Unknown(t: Table, topicId: uint16) {
    forall tp | tp in t.topics :: tp.id != topicId
  }

  lemma UnknownIff(t: Table, topicId: uint16)
    ensures Unknown(t, topicId) <==> NameOfId(t, topicId) == None
  {
  }

  // ---------- Rejected PUBLISH ----------

  /** A PUBLISH with a message id on a topic id that no topic has. */
  ghost predicate Misdirected(t: Table, item: Item, topicId: uint16, msgId: uint16) {
    && item.FromClient? && item.sn.SnPublish? && item.sn.topicId == topicId && item.sn.msgId == msgId
    && msgId != 0 && Unknown(t, topicId)
  }

  lemma PubAckPublish(n: Node, item: Item, topicId: uint16, msgId: uint16, rc: byte)
    requires item.FromClient? && item.sn.SnPublish?
    ensures
      var outs, m := Handle(n, item).outs, SnPubAck(topicId, msgId, rc);
      && (Told(outs, m) <==> Misdirected(n.topics, item, topicId, msgId) && rc == 2)
      && (Told(outs, m) ==> OnlyTold(outs, m))
  {
    UnknownIff(n.topics, topicId);
  }

  lemma NoPubAck(n: Node, item: Item, m: SnMessage)
    requires !(item.FromClient? && item.sn.SnPublish?) && m.SnPubAck?
    ensures !Told(Handle(n, item).outs, m)
  {
  }

  lemma PubAckStep(n: Node, item: Item, topicId: uint16, msgId: uint16, rc: byte)
    ensures
      var outs, m := Handle(n, item).outs, SnPubAck(topicId, msgId, rc);
      && (Told(outs, m) <==> Misdirected(n.topics, item, topicId, msgId) && rc == 2)
      && (Told(outs, m) ==> OnlyTold(outs, m))
  {
    if item.FromClient? && item.sn.SnPublish? {
      PubAckPublish(n, item, topicId, msgId, rc);
    } else {
      NoPubAck(n, item, SnPubAck(topicId, msgId, rc));
    }
  }

  /** A PUBACK that is made on the spot goes out if and only if a client PUBLISH with that message
      id, not 0, is on that topic id, which no topic has. Its code is 2, rejected for an invalid
      topic id, and nothing else is sent to anyone. */
  lemma PubAckIff(id: Str, log: seq<Item>, n: nat, topicId: uint16, msgId: uint16, rc: byte)
    requires n < |log|
    ensures
      var outs, m := OutsAt(id, log, n), SnPubAck(topicId, msgId, rc);
      && (Told(outs, m) <==> Misdirected(At(id, log, n).topics, log[n], topicId, msgId) && rc == 2)
      && (Told(outs, m) ==> OnlyTold(outs, m))
  {
    PubAckStep(At(id, log, n), log[n], topicId, msgId, rc);
  }

  // ---------- The will handshake ----------

  lemma WillTopicReqStep(n: Node, item: Item)
    ensures
      var outs := Handle(n, item).outs;
      && (Told(outs, SnWillTopicReq) <==> WillHandshake.WantsWill(item))
      && (Told(outs, SnWillTopicReq) ==> OnlyTold(outs, SnWillTopicReq))
  {
  }

  lemma WillMsgReqStep(n: Node, item: Item)
    ensures
      var outs := Handle(n, item).outs;
      && (Told(outs, SnWillMsgReq) <==> WillHandshake.IsWillTopic(item) && n.connect.Some?)
      && (Told(outs, SnWillMsgReq) ==> OnlyTold(outs, SnWillMsgReq))
  {
  }

  /** The will topic is asked for exactly on a CONNECT with the Will flag, alone. */
  lemma WillTopicReqIff(id: Str, log: seq<Item>, n: nat)
    requires n < |log|
    ensures
      var outs := OutsAt(id, log, n);
      && (Told(outs, SnWillTopicReq) <==> WillHandshake.WantsWill(log[n]))
      && (Told(outs, SnWillTopicReq) ==> OnlyTold(outs, SnWillTopicReq))
  {
    WillTopicReqStep(At(id, log, n), log[n]);
  }

  /** The will message is asked for exactly on a WILLTOPIC in an open handshake, alone. */
  lemma WillMsgReqIff(id: Str, log: seq<Item>, n: nat)
    requires n < |log|
    ensures
      var outs := OutsAt(id, log, n);
      && (Told(outs, SnWillMsgReq) <==>
            WillHandshake.IsWillTopic(log[n]) && exists j: nat :: WillHandshake.Open(log, j, n))
      && (Told(outs, SnWillMsgReq) ==> OnlyTold(outs, SnWillMsgReq))
  {
    WillMsgReqStep(At(id, log, n), log[n]);
    WillHandshake.HandshakeOfState(id, log, n);
    WillHandshake.SlotMeaning(id, log, n);
  }

  // ---------- Connections and pings ----------

  lemma ConnackStep(n: Node, item: Item, rc: byte)
    ensures
      var outs, m := Handle(n, item).outs, SnConnack(rc);
      && (Told(outs, m) <==>
            || (item.FromBroker? && item.packet.ConnAck? && rc == if item.packet.returnCode == 0 then 0 else 3)
            || (WillHandshake.IsWillMsg(item) && n.connect == None && rc == 1))
      && (Told(outs, m) ==> OnlyTold(outs, m))
  {
  }

  /** A CONNACK says 0, accepted, exactly for an accepting one of the broker; 3, not supported, for
      any other of the broker; and 1, congestion, for a WILLMSG with no open handshake. */
  lemma ConnackIff(id: Str, log: seq<Item>, n: nat, rc: byte)
    requires n < |log|
    ensures
      var outs, item := OutsAt(id, log, n), log[n];
      && (Told(outs, SnConnack(rc)) <==>
            || (item.FromBroker? && item.packet.ConnAck? && rc == if item.packet.returnCode == 0 then 0 else 3)
            || (WillHandshake.IsWillMsg(item) && rc == 1 && !exists j: nat :: WillHandshake.Open(log, j, n)))
      && (Told(outs, SnConnack(rc)) ==> OnlyTold(outs, SnConnack(rc)))
  {
    ConnackStep(At(id, log, n), log[n], rc);
    WillHandshake.HandshakeOfState(id, log, n);
    WillHandshake.SlotMeaning(id, log, n);
  }

  lemma PingRespIff(id: Str, log: seq<Item>, n: nat)
    requires n < |log|
    ensures
      var outs := OutsAt(id, log, n);
      && (Told(outs, SnPingResp) <==> log[n].FromBroker? && log[n].packet.PingResp?)
      && (Told(outs, SnPingResp) ==> OnlyTold(outs, SnPingResp))
  {
    PingRespStep(At(id, log, n), log[n]);
  }

  lemma PingRespStep(n: Node, item: Item)
    ensures
      var outs := Handle(n, item).outs;
      && (Told(outs, SnPingResp) <==> item.FromBroker? && item.packet.PingResp?)
      && (Told(outs, SnPingResp) ==> OnlyTold(outs, SnPingResp))
  {
  }

  /** The client messages that are passed on as they are: PINGREQ, DISCONNECT, and PUBACK with its
      message id. */
  function PassedOn(item: Item): Option<MqMessage> {
    if !item.FromClient? then None
    else match item.sn
      case SnPingReq => Some(MqPingReq)
      case SnDisconnect => Some(MqDisconnect)
      case SnPubAck(_, msgId, _) => Some(MqPubAck(msgId))
      case _ => None
  }

  lemma PassedOnStep(n: Node, item: Item, m: MqMessage)
    requires m.MqPingReq? || m.MqDisconnect? || m.MqPubAck?
    ensures
      var outs := Handle(n, item).outs;
      && (Forwarded(outs, m) <==> PassedOn(item) == Some(m))
      && (Forwarded(outs, m) ==> OnlyForwarded(outs, m))
  {
  }

  lemma PassedOnIff(id: Str, log: seq<Item>, n: nat, m: MqMessage)
    requires n < |log| && (m.MqPingReq? || m.MqDisconnect? || m.MqPubAck?)
    ensures
      var outs := OutsAt(id, log, n);
      && (Forwarded(outs, m) <==> PassedOn(log[n]) == Some(m))
      && (Forwarded(outs, m) ==> OnlyForwarded(outs, m))
  {
    PassedOnStep(At(id, log, n), log[n], m);
  }

  // ---------- SUBSCRIBE and UNSUBSCRIBE ----------

  predicate Subscribes(item: Item, idType: int) {
    item.FromClient? && item.sn.SnSubscribe? && item.sn.flags % 4 == idType
  }

  /** A SUBSCRIBE of the reserved type (3) is rejected with code 2; one of a predefined id (1) is
      accepted for the time topic, id 1, and else rejected, with the QoS asked for if that is 1. */
  predicate Answered(item: Item, m: SnMessage)
    requires m.SnSuback?
  {
    && item.FromClient? && item.sn.SnSubscribe?
    && item.sn.msgId == m.msgId && m.msgId != 0 && item.sn.topicId == m.topicId
    && (|| (Subscribes(item, 3) && m.flags == 0 && m.returnCode == 2)
        || (Subscribes(item, 1) && m.flags == (if SnQos(item.sn.flags) == 1 then 0x20 else 0)
            && m.returnCode == if m.topicId == 1 then 0 else 2))
  }

  lemma SubackSubscribe(n: Node, item: Item, m: SnMessage)
    requires m.SnSuback? && item.FromClient? && item.sn.SnSubscribe?
    ensures
      var outs := Handle(n, item).outs;
      && (Told(outs, m) <==> Answered(item, m))
      && (Told(outs, m) ==> if m.returnCode == 2 then OnlyTold(outs, m) else outs[0] == ToClient(ForClient(m)))
  {
  }

  lemma NoSuback(n: Node, item: Item, m: SnMessage)
    requires m.SnSuback? && !(item.FromClient? && item.sn.SnSubscribe?)
    ensures !Told(Handle(n, item).outs, m)
  {
  }

  lemma SubackStep(n: Node, item: Item, m: SnMessage)
    requires m.SnSuback?
    ensures
      var outs := Handle(n, item).outs;
      && (Told(outs, m) <==> Answered(item, m))
      && (Told(outs, m) ==> if m.returnCode == 2 then OnlyTold(outs, m) else outs[0] == ToClient(ForClient(m)))
  {
    if item.FromClient? && item.sn.SnSubscribe? {
      SubackSubscribe(n, item, m);
    } else {
      NoSuback(n, item, m);
    }
  }

  /** A SUBACK that is made on the spot: exactly when, and with what code. */
  lemma SubackIff(id: Str, log: seq<Item>, n: nat, m: SnMessage)
    requires n < |log| && m.SnSuback?
    ensures
      var outs := OutsAt(id, log, n);
      && (Told(outs, m) <==> Answered(log[n], m))
      && (Told(outs, m) ==> if m.returnCode == 2 then OnlyTold(outs, m) else outs[0] == ToClient(ForClient(m)))
  {
    SubackStep(At(id, log, n), log[n], m);
  }

  predicate AsksTime(item: Item) {
    Subscribes(item, 1) && item.sn.topicId == 1
  }

  /** How often the time was asked for before message n. */
  function TimesAsked(log: seq<Item>, n: nat): nat
    requires n <= |log|
  {
    if n == 0 then 0 else TimesAsked(log, n - 1) + if AsksTime(log[n - 1]) then 1 else 0
  }

  lemma SnMsgIdStep(n: Node, item: Item)
    ensures Handle(n, item).st.snMsgId ==
      if !AsksTime(item) then n.snMsgId else if n.snMsgId == 255 then 1 else n.snMsgId + 1
  {
  }

  /** 0 before the first one, then 1 to 255 over and over. */
  function IdAfter(times: nat): byte {
    if times == 0 then 0 else 1 + (times - 1) % 255
  }

  lemma IdsCycle(times: nat)
    ensures IdAfter(times + 1) == if IdAfter(times) == 255 then 1 else IdAfter(times) + 1
  {
  }

  lemma {:induction false} SnMsgIdCounts(id: Str, log: seq<Item>, n: nat)
    requires n <= |log|
    ensures At(id, log, n).snMsgId == IdAfter(TimesAsked(log, n))
    decreases n
  {
    if n > 0 {
      SnMsgIdCounts(id, log, n - 1);
      SnMsgIdStep(At(id, log, n - 1), log[n - 1]);
      IdsCycle(TimesAsked(log, n - 1));
    }
  }

  lemma TimeStep(n: Node, item: Item, m: SnMessage)
    requires m.SnPublish? && item.FromClient?
    ensures Told(Handle(n, item).outs, m) <==>
      && AsksTime(item) && |item.env.time| <= 248
      && m == SnPublish(1, 1, if n.snMsgId == 255 then 1 else n.snMsgId + 1, item.env.time)
  {
  }

  /** On a client's message a PUBLISH goes back to it exactly if the time is asked for: predefined
      type and id 1, the time as data, and the message ids 1 to 255 in turn, never 0. */
  lemma TimeIff(id: Str, log: seq<Item>, n: nat, m: SnMessage)
    requires n < |log| && log[n].FromClient? && m.SnPublish?
    ensures Told(OutsAt(id, log, n), m) <==>
      && AsksTime(log[n]) && |log[n].env.time| <= 248
      && m == SnPublish(1, 1, 1 + TimesAsked(log, n) % 255, log[n].env.time)
  {
    SnMsgIdCounts(id, log, n);
    IdsCycle(TimesAsked(log, n));
    TimeStep(At(id, log, n), log[n], m);
  }

  /** An UNSUBSCRIBE of the reserved type, or of a predefined id that the stray bytes name. */
  ghost predicate Refused(t: Table, item: Item, msgId: uint16) {
    && item.FromClient? && item.sn.SnUnsubscribe? && item.sn.msgId == msgId && msgId != 0
    && (item.sn.flags % 4 == 3 || (item.sn.flags % 4 == 1 && !Unknown(t, item.env.stray)))
  }

  lemma UnsubackToClient(n: Node, item: Item, msgId: uint16)
    requires item.FromClient?
    ensures
      var outs, m := Handle(n, item).outs, SnUnsuback(msgId);
      (Told(outs, m) <==> Refused(n.topics, item, msgId)) && (Told(outs, m) ==> OnlyTold(outs, m))
  {
    UnknownIff(n.topics, item.env.stray);
  }

  lemma UnsubackOfBroker(n: Node, item: Item, msgId: uint16)
    requires !item.FromClient?
    ensures
      var outs, m := Handle(n, item).outs, SnUnsuback(msgId);
      && (Told(outs, m) <==> item.FromBroker? && item.packet == BrokerReceive.UnsubAck(msgId))
      && (Told(outs, m) ==> OnlyTold(outs, m))
  {
  }

  lemma UnsubackStep(n: Node, item: Item, msgId: uint16)
    ensures
      var outs, m := Handle(n, item).outs, SnUnsuback(msgId);
      && (Told(outs, m) <==> (item.FromBroker? && item.packet == BrokerReceive.UnsubAck(msgId)) || Refused(n.topics, item, msgId))
      && (Told(outs, m) ==> OnlyTold(outs, m))
  {
    if item.FromClient? {
      UnsubackToClient(n, item, msgId);
    } else {
      UnsubackOfBroker(n, item, msgId);
    }
  }

  /** An UNSUBACK: exactly for one of the broker with that id, and for a refused UNSUBSCRIBE. */
  lemma UnsubackIff(id: Str, log: seq<Item>, n: nat, msgId: uint16)
    requires n < |log|
    ensures
      var outs, m, item := OutsAt(id, log, n), SnUnsuback(msgId), log[n];
      && (Told(outs, m) <==>
            (item.FromBroker? && item.packet == BrokerReceive.UnsubAck(msgId)) || Refused(At(id, log, n).topics, item, msgId))
      && (Told(outs, m) ==> OnlyTold(outs, m))
  {
    UnsubackStep(At(id, log, n), log[n], msgId);
  }

  // ---------- What goes to the broker ----------

  /** A PUBLISH on a known id; a SUBSCRIBE that names a topic; an UNSUBSCRIBE that is not refused. */
  ghost predicate Forwards(t: Table, item: Item) {
    && item.FromClient?
    && match item.sn
       case SnPublish(_, topicId, _, _) => !Unknown(t, topicId)
       case SnSubscribe(flags, _, _, _) => flags % 4 in {0, 2}
       case SnUnsubscribe(flags, _, _) => flags % 4 in {0, 2} || (flags % 4 == 1 && Unknown(t, item.env.stray))
       case _ => false
  }

  predicate SameKind(item: Item, m: MqMessage) {
    && item.FromClient?
    && match item.sn
       case SnPublish(_, _, msgId, _) => m.MqPublish? && m.p.messageId == msgId
       case SnSubscribe(_, msgId, _, _) => m.MqSubscribe? && m.s.messageId == msgId
       case SnUnsubscribe(_, msgId, _) => m.MqUnsubscribe? && m.u.messageId == msgId
       case _ => false
  }

  ghost predicate ForwardsOne(outs: seq<Out<Item>>, item: Item) {
    exists m :: SameKind(item, m) && OnlyForwarded(outs, m)
  }

  lemma ForwardStep(n: Node, item: Item)
    ensures
      var outs := Handle(n, item).outs;
      && (Forwards(n.topics, item) ==> ForwardsOne(outs, item))
      && (!Forwards(n.topics, item) ==>
            forall m: MqMessage | m.MqPublish? || m.MqSubscribe? || m.MqUnsubscribe? :: !Forwarded(outs, m))
  {
    if item.FromClient? && item.sn.SnPublish? {
      UnknownIff(n.topics, item.sn.topicId);
    } else if item.FromClient? && item.sn.SnUnsubscribe? {
      UnknownIff(n.topics, item.env.stray);
    }
    if Forwards(n.topics, item) {
      var m := Handle(n, item).outs[0].x.mq;
      assert SameKind(item, m) && OnlyForwarded(Handle(n, item).outs, m);
    }
  }

  /** A PUBLISH, SUBSCRIBE or UNSUBSCRIBE goes to the broker exactly for a client message of that
      kind that is not rejected, with its message id, and then it is all that is sent. */
  lemma ForwardIff(id: Str, log: seq<Item>, n: nat)
    requires n < |log|
    ensures
      var outs, t := OutsAt(id, log, n), At(id, log, n).topics;
      && (Forwards(t, log[n]) ==> ForwardsOne(outs, log[n]))
      && (!Forwards(t, log[n]) ==>
            forall m: MqMessage | m.MqPublish? || m.MqSubscribe? || m.MqUnsubscribe? :: !Forwarded(outs, m))
  {
    ForwardStep(At(id, log, n), log[n]);
  }

  // ---------- Nothing else ----------

  ghost predicate Expected(item: Item, m: SnMessage) {
    || m.SnPubAck? || m.SnWillTopicReq? || m.SnWillMsgReq? || m.SnConnack? || m.SnPingResp? || m.SnSuback? || m.SnUnsuback?
    || (m.SnRegack? && item.FromClient? && item.sn.SnRegister?)
    || (m.SnPublish? && (AsksTime(item) || (item.FromBroker? && item.packet.PublishPacket?)))
    || (m.SnRegister? && item.FromBroker? && item.packet.PublishPacket?)
    || (m.Overrun? && (AsksTime(item) || (item.FromBroker? && item.packet.PublishPacket?)))
  }

  lemma KindsOfClient(n: Node, sn: SnMessage, env: Env, m: SnMessage)
    requires Told(HandleClient(n, sn, env).outs, m)
    ensures Expected(FromClient(sn, env), m)
  {
  }

  lemma KindsOfBroker(n: Node, packet: BrokerReceive.BrokerPacket, env: Env, m: SnMessage)
    requires Told(HandleBroker(n, packet, env).outs, m)
    ensures Expected(FromBroker(packet, env), m)
  {
  }

  /** No other message is ever sent to a client; a REGACK only for a REGISTER, a REGISTER only for a
      PUBLISH of the broker. */
  lemma NothingElse(id: Str, log: seq<Item>, n: nat, m: SnMessage)
    requires n < |log| && Told(OutsAt(id, log, n), m)
    ensures Expected(log[n], m)
  {
    match log[n] {
      case FromClient(sn, env) => KindsOfClient(At(id, log, n), sn, env, m);
      case FromBroker(packet, env) => KindsOfBroker(At(id, log, n), packet, env, m);
      case _ =>
    }
  }

  // ---------- Flags ----------

  /** Downstream flags, bit by bit: the type says two characters exactly for such a topic; QoS 1 is
      kept, any other becomes 0; the DUP bit is set for RETAIN; RETAIN, Will and clean are not. */
  lemma DownstreamFlagsSay(p: Publish)
    requires p.flags < 16
    ensures
      var f := DownstreamFlags(p);
      && f % 4 == (if |p.topic| == 2 then 2 else 0)
      && SnQos(f) == (if (p.flags / 2) % 4 == 1 then 1 else 0)
      && (HasBit(f, 128) <==> HasBit(p.flags, 1))
      && !HasBit(f, 16) && !HasBit(f, 8) && !HasBit(f, 4)
  {
  }

  /** So DUP and RETAIN reach the client as the broker sent them exactly if neither was set: DUP is
      lost, and RETAIN comes as DUP. */
  lemma DownstreamBitsKeptIff(p: Publish)
    requires p.flags < 16
    ensures
      var f := DownstreamFlags(p);
      (HasBit(f, 128) <==> HasBit(p.flags, 8)) && (HasBit(f, 16) <==> HasBit(p.flags, 1))
      <==> !HasBit(p.flags, 8) && !HasBit(p.flags, 1)
  {
    DownstreamFlagsSay(p);
  }

  /** Upstream, any flag of a PUBLISH sets both DUP and RETAIN: they are kept exactly if there is no
      flag at all, or both are set. Any QoS but 0 becomes 1. */
  lemma UpstreamBitsKeptIff(flags: byte)
    ensures
      var f := UpstreamFlags(flags);
      && ((HasBit(f, 8) <==> HasBit(flags, 128)) && (HasBit(f, 1) <==> HasBit(flags, 16))
          <==> flags == 0 || (HasBit(flags, 128) && HasBit(flags, 16)))
      && (f / 2) % 4 == (if SnQos(flags) == 0 then 0 else 1)
  {
  }

  /** A SUBSCRIBE keeps both. */
  lemma SubscribeBitsKept(flags: byte)
    ensures
      var f := SubscribeFlags(flags);
      (HasBit(f, 8) <==> HasBit(flags, 128)) && (HasBit(f, 1) <==> HasBit(flags, 16))
  {
  }
}
