/** What an accepted SUBACK tells the client, over runs of the handlers. */
module Subscriptions {
  import opened Wrappers
  import opened Bytes
  import opened TopicRegistry
  import opened Pipeline
  import opened Gateway
  import opened GatewayRuns
  import opened AckSlot
  import opened Acknowledgements
  import opened TopicAgreement

  lemma ObjectsStep(n: Node, item: Item)
    ensures
      var t := Handle(n, item).st.subAcks;
      |n.subAcks| <= |t| && forall k | 0 <= k < |n.subAcks| && n.waitedSubAck != Some(k) :: t[k] == n.subAcks[k]
  {
  }

  lemma GrantedStep(n: Node, item: Item, k: nat)
    requires ToClient(SubAckAt(k)) in Handle(n, item).outs
    ensures item.FromBroker? && item.packet.SubAck?
    ensures
      var t := Handle(n, item).st.subAcks;
      k < |t| && t[k].flags == GrantedFlags(item.packet.qos)
  {
  }

  lemma FlagsKept(n: Node, item: Item, k: nat, flags: byte, next: seq<SubAckObject>)
    requires next == Handle(n, item).st.subAcks
    requires k < |n.subAcks| && n.subAcks[k].flags == flags && n.waitedSubAck != Some(k)
    ensures k < |next| && next[k].flags == flags
  {
    ObjectsStep(n, item);
  }

  predicate HasFlags(os: seq<SubAckObject>, k: nat, flags: byte) {
    k < |os| && os[k].flags == flags
  }

  lemma FlagsFirst(id: Str, log: seq<Item>, j: nat, k: nat) returns (qos: byte)
    requires j < |log| && Accepts(Subscribing, id, log, j, k)
    ensures log[j].FromBroker? && log[j].packet.SubAck? && log[j].packet.qos == qos
    ensures HasFlags(At(id, log, j + 1).subAcks, k, GrantedFlags(qos))
  {
    GrantedStep(At(id, log, j), log[j], k);
    qos := log[j].packet.qos;
  }

  lemma FlagsNext(id: Str, log: seq<Item>, j: nat, k: nat, n: nat, flags: byte, os: seq<SubAckObject>)
    returns (next: seq<SubAckObject>)
    requires j < n < |log| && Accepts(Subscribing, id, log, j, k)
    requires os == At(id, log, n).subAcks && HasFlags(os, k, flags)
    ensures next == At(id, log, n + 1).subAcks && HasFlags(next, k, flags)
  {
    next := At(id, log, n + 1).subAcks;
    AckHandedOver(Subscribing, id, log, j, k, n);
    FlagsKept(At(id, log, n), log[n], k, flags, next);
  }

  lemma {:induction false} FlagsStay(id: Str, log: seq<Item>, j: nat, k: nat, n: nat, flags: byte, first: seq<SubAckObject>)
    returns (os: seq<SubAckObject>)
    requires j < n <= |log| && Accepts(Subscribing, id, log, j, k)
    requires first == At(id, log, j + 1).subAcks && HasFlags(first, k, flags)
    ensures os == At(id, log, n).subAcks && HasFlags(os, k, flags)
    decreases n
  {
    if n == j + 1 {
      os := first;
    } else {
      os := FlagsStay(id, log, j, k, n - 1, flags, first);
      os := FlagsNext(id, log, j, k, n - 1, flags, os);
    }
  }

  /** The QoS bits are those of QoS 1 if that was granted, and else of QoS 0; no other bit is set. */
  predicate Grants(flags: byte, qos: byte) {
    SnQos(flags) == (if qos == 1 then 1 else 0) && ClearSnQos(flags) == 0
  }

  /** The object queued by message j has the QoS of that SUBACK of the broker if it is 0 or 1, and
      QoS 0 otherwise, for ever. */
  lemma GrantedQos(id: Str, log: seq<Item>, j: nat, k: nat, n: nat)
    requires j < n <= |log| && Accepts(Subscribing, id, log, j, k)
    ensures log[j].FromBroker? && log[j].packet.SubAck?
    ensures var os := At(id, log, n).subAcks; k < |os| && Grants(os[k].flags, log[j].packet.qos)
  {
    var qos := FlagsFirst(id, log, j, k);
    var os := FlagsStay(id, log, j, k, n, GrantedFlags(qos), At(id, log, j + 1).subAcks);
    FlagsGrant(qos);
  }

  lemma FlagsGrant(qos: byte)
    ensures Grants(GrantedFlags(qos), qos)
  {
  }

  /** The SUBSCRIBE at i made this the id of its topic, or 0 exactly when there was no room. */
  lemma SubscribedId(id: Str, log: seq<Item>, i: nat)
    requires AllOrdinary(log) && i < |log| && Events(Subscribing, id, log, |log|)[i].Forward?
    ensures log[i].FromClient? && log[i].sn.SnSubscribe? && ByName(log[i].sn)
    ensures
      var topicId, t := Events(Subscribing, id, log, |log|)[i].topicId, At(id, log, i).topics;
      && (topicId == 0 <==> GetTopicId(t, log[i].sn.name) == 0 && |t.topics| == MAX_TOPIC_COUNT)
      && (topicId != 0 ==> NameOfId(At(id, log, i + 1).topics, topicId) == Some(log[i].sn.name))
  {
    EventAt(Subscribing, id, log, i);
    RegistryInOrder(id, log, i);
    SubscribeStep(At(id, log, i), log[i]);
  }

  lemma SubscribeStep(n: Node, item: Item)
    requires InOrder(n.topics) && Ordinary(item) && EventOf(Subscribing, n, item).Forward?
    ensures item.FromClient? && item.sn.SnSubscribe? && ByName(item.sn)
    ensures
      var topicId := EventOf(Subscribing, n, item).topicId;
      && (topicId == 0 <==> GetTopicId(n.topics, item.sn.name) == 0 && |n.topics.topics| == MAX_TOPIC_COUNT)
      && (topicId != 0 ==> NameOfId(Handle(n, item).st.topics, topicId) == Some(item.sn.name))
  {
    CreateMakesKnown(n.topics, item.sn.name, item.env.objectBytes);
    TopicsStep(n, item);
  }

  /** An accepted SUBACK for the SUBSCRIBE at i: one object, with its message id, and a topic id
      that stands for its topic name in `now` - or 0, exactly when there was no room for it. */
  ghost predicate Subscribed(m: SnMessage, before: Table, outs: seq<Out<Item>>, made: seq<AckObject>, now: Table)
    requires m.SnSubscribe?
  {
    exists k: nat | k < |made| ::
      && outs == [ToClient(SubAckAt(k))] && made[k].msgId == m.msgId
      && (made[k].topicId == 0 <==> GetTopicId(before, m.name) == 0 && |before.topics| == MAX_TOPIC_COUNT)
      && (made[k].topicId != 0 ==> NameOfId(now, made[k].topicId) == Some(m.name))
  }

  /** In every run with ordinary names, the acknowledgement of a SUBSCRIBE carries the id by which
      the registry knows its topic, from the SUBSCRIBE until the next clean session. */
  lemma SubackAgreement(id: Str, log: seq<Item>, i: nat, j: nat, later: nat)
    requires AllOrdinary(log) && Answers(Events(Subscribing, id, log, |log|), i, j)
    requires j < later <= |log| && SameSession(log, i + 1, later)
    ensures log[i].FromClient? && log[i].sn.SnSubscribe?
    ensures
      var made := Ids(At(id, log, j + 1).subAcks);
      Subscribed(log[i].sn, At(id, log, i).topics, OutsAt(id, log, j), made, At(id, log, later).topics)
  {
    var ev := Events(Subscribing, id, log, |log|)[i];
    SubscribedId(id, log, i);
    EventAt(Subscribing, id, log, i);
    SubscribeMsgId(At(id, log, i), log[i]);
    if ev.topicId != 0 {
      IdsLast(id, log, i + 1, later, ev.topicId);
    }
    AckContent(Subscribing, id, log, i, j);
    SubscribedBy(log[i].sn, At(id, log, i).topics, OutsAt(id, log, j), SlotOf(Subscribing, At(id, log, j + 1)),
      At(id, log, later).topics, ev.topicId);
  }

  lemma SubscribedBy(m: SnMessage, before: Table, outs: seq<Out<Item>>, slot: Slot, now: Table, topicId: uint16)
    requires m.SnSubscribe? && HandsOver(Subscribing, outs, slot, topicId, m.msgId)
    requires topicId == 0 <==> GetTopicId(before, m.name) == 0 && |before.topics| == MAX_TOPIC_COUNT
    requires topicId != 0 ==> NameOfId(now, topicId) == Some(m.name)
    ensures Subscribed(m, before, outs, slot.made, now)
  {
  }

  lemma SubscribeMsgId(n: Node, item: Item)
    requires EventOf(Subscribing, n, item).Forward?
    ensures item.FromClient? && item.sn.SnSubscribe? && EventOf(Subscribing, n, item).msgId == item.sn.msgId
  {
  }
}
