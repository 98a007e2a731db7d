/** Topic ids told to a client (section 6.10 of MQTT-SN v1.2) over runs of the handlers. */
module TopicAgreement {
  import opened Wrappers
  import opened Bytes
  import opened TopicRegistry
  import opened MqttCodec
  import opened Pipeline
  import opened Gateway
  import opened GatewayRuns
  import BrokerReceive

  predicate CleanConnect(item: Item) {
    item.FromClient? && item.sn.SnConnect? && HasBit(item.sn.flags, 0x04)
  }

  /** The topic name a message brings, if it can make the gateway create a topic. */
  function NameIn(item: Item): Option<Str> {
    if item.FromClient? && item.sn.SnRegister? then Some(item.sn.name)
    else if item.FromClient? && item.sn.SnSubscribe? then Some(item.sn.name)
    else if item.FromBroker? && item.packet.PublishPacket? then Some(item.packet.p.topic)
    else None
  }

  /** The name a message makes the gateway look up or create, if any. */
  function Creates(item: Item): Option<Str> {
    if item.FromClient? && item.sn.SnSubscribe? && item.sn.flags % 4 in {TYPE_PREDEFINED, TYPE_RESERVED} then None
    else if item.FromBroker? && item.packet.PublishPacket? && |item.packet.p.topic| == 2 && item.env.ownBytes != 0 then None
    else NameIn(item)
  }

  /** It brings no two-character name (modulo 256) to the registry: see CreatedIdIsTheNamesIff. */
  predicate Ordinary(item: Item) {
    match Creates(item) case None => true case Some(name) => !Short(name)
  }

  predicate AllOrdinary(log: seq<Item>) {
    forall i | 0 <= i < |log| :: Ordinary(log[i])
  }

  function TopicsNext(t: Table, item: Item): Table {
    if CleanConnect(item) then NewTable()
    else match Creates(item) case None => t case Some(name) => CreateTopic(t, name, item.env.objectBytes).table
  }

  function TopicsAt(log: seq<Item>, n: nat): Table
    requires n <= |log|
  {
    if n == 0 then NewTable() else TopicsNext(TopicsAt(log, n - 1), log[n - 1])
  }

  lemma ConnectTopics(n: Node, m: SnMessage, env: Env)
    requires m.SnConnect?
    ensures Handle(n, FromClient(m, env)).st.topics == TopicsNext(n.topics, FromClient(m, env))
  {
  }

  lemma SubscribeTopics(n: Node, m: SnMessage, env: Env)
    requires m.SnSubscribe?
    ensures Handle(n, FromClient(m, env)).st.topics == TopicsNext(n.topics, FromClient(m, env))
  {
  }

  lemma OtherTopics(n: Node, m: SnMessage, env: Env)
    requires !m.SnConnect? && !m.SnSubscribe?
    ensures Handle(n, FromClient(m, env)).st.topics == TopicsNext(n.topics, FromClient(m, env))
  {
  }

  lemma BrokerTopics(n: Node, packet: BrokerReceive.BrokerPacket, env: Env)
    ensures Handle(n, FromBroker(packet, env)).st.topics == TopicsNext(n.topics, FromBroker(packet, env))
  {
  }

  lemma TopicsStep(n: Node, item: Item)
    ensures Handle(n, item).st.topics == TopicsNext(n.topics, item)
  {
    match item {
      case FromBroker(packet, env) => BrokerTopics(n, packet, env);
      case FromClient(m, env) =>
        if m.SnConnect? {
          ConnectTopics(n, m, env);
        } else if m.SnSubscribe? {
          SubscribeTopics(n, m, env);
        } else {
          OtherTopics(n, m, env);
        }
      case _ =>
    }
  }

  lemma {:induction false} TopicsOfState(id: Str, log: seq<Item>, n: nat)
    requires n <= |log|
    ensures At(id, log, n).topics == TopicsAt(log, n)
    decreases n
  {
    if n > 0 {
      TopicsOfState(id, log, n - 1);
      TopicsStep(At(id, log, n - 1), log[n - 1]);
    }
  }

  lemma TopicsNextInOrder(t: Table, item: Item)
    requires Ordinary(item) && InOrder(t)
    ensures InOrder(TopicsNext(t, item)) && (!CleanConnect(item) ==> t.topics <= TopicsNext(t, item).topics)
  {
    if Creates(item).Some? {
      CreateKeepsOrder(t, Creates(item).value, item.env.objectBytes);
    }
  }

  lemma {:induction false} TopicsInOrder(log: seq<Item>, n: nat)
    requires AllOrdinary(log) && n <= |log|
    ensures InOrder(TopicsAt(log, n))
    decreases n
  {
    if n > 0 {
      TopicsInOrder(log, n - 1);
      TopicsNextInOrder(TopicsAt(log, n - 1), log[n - 1]);
    }
  }

  lemma RegistryInOrder(id: Str, log: seq<Item>, n: nat)
    requires AllOrdinary(log) && n <= |log|
    ensures InOrder(At(id, log, n).topics)
  {
    TopicsOfState(id, log, n);
    TopicsInOrder(log, n);
  }

  /** One session: from m to n no CONNECT with the clean flag. */
  predicate SameSession(log: seq<Item>, m: nat, n: nat)
    requires m <= n <= |log|
  {
    forall t | m <= t < n :: !CleanConnect(log[t])
  }

  lemma {:induction false} TopicsExtend(log: seq<Item>, m: nat, n: nat)
    requires AllOrdinary(log) && m <= n <= |log| && SameSession(log, m, n)
    ensures TopicsAt(log, m).topics <= TopicsAt(log, n).topics
    decreases n
  {
    if m < n {
      TopicsExtend(log, m, n - 1);
      TopicsInOrder(log, n - 1);
      TopicsNextInOrder(TopicsAt(log, n - 1), log[n - 1]);
    }
  }

  lemma NameInPrefix(a: Table, b: Table, topicId: uint16)
    requires a.topics <= b.topics && NameOfId(a, topicId).Some?
    ensures NameOfId(b, topicId) == NameOfId(a, topicId)
  {
    FindIdInPrefix(a.topics, b.topics, topicId);
  }

  lemma IdsLast(id: Str, log: seq<Item>, m: nat, n: nat, topicId: uint16)
    requires AllOrdinary(log) && m <= n <= |log| && SameSession(log, m, n)
    requires NameOfId(At(id, log, m).topics, topicId).Some?
    ensures NameOfId(At(id, log, n).topics, topicId) == NameOfId(At(id, log, m).topics, topicId)
  {
    TopicsOfState(id, log, m);
    TopicsOfState(id, log, n);
    TopicsExtend(log, m, n);
    NameInPrefix(TopicsAt(log, m), TopicsAt(log, n), topicId);
  }

  /** A PUBLISH with these fields. With more than 248 bytes of data the 8-bit length overruns; then
      length and type are all that is sure of its bytes. */
  predicate PublishWith(m: SnMessage, flags: byte, topicId: uint16, msgId: uint16, data: seq<byte>) {
    m == if |data| <= 248 then SnPublish(flags, topicId, msgId, data) else Overrun(0x0c, (7 + |data|) % 256)
  }

  /** A REGISTER of this id and name; the same above 249 bytes. */
  predicate RegisterWith(m: SnMessage, topicId: uint16, name: Str) {
    m == if |name| <= 249 then SnRegister(topicId, 0, name) else Overrun(0x0a, (6 + |name|) % 256)
  }

  predicate IsMessage(o: Out<Item>) {
    o.ToClient? && o.y.ForClient?
  }

  /** What is queued for the client for a PUBLISH of the broker: the PUBLISH under an id, after a
      REGISTER of that id if it is new, and nothing else. */
  ghost predicate Delivers(p: Publish, outs: seq<Out<Item>>, topicId: uint16, registered: bool) {
    && |outs| == (if registered then 2 else 1) && (forall o | o in outs :: IsMessage(o))
    && (registered ==> IsMessage(outs[0]) && RegisterWith(outs[0].y.out, topicId, p.topic))
    && var last := outs[|outs| - 1];
       IsMessage(last) && PublishWith(last.y.out, DownstreamFlags(p), topicId, p.messageId, p.payload)
  }

  /** After createTopic the name is known by a non-zero id, unless there was no room. */
  lemma CreateMakesKnown(t: Table, name: Str, objectBytes: uint16)
    requires InOrder(t) && !Short(name)
    ensures
      var made := CreateTopic(t, name, objectBytes);
      if GetTopicId(t, name) == 0 && |t.topics| == MAX_TOPIC_COUNT then made == Created(t, 0)
      else made.id != 0 && GetTopicId(made.table, name) == made.id && NameOfId(made.table, made.id) == Some(name)
  {
    var made := CreateTopic(t, name, objectBytes);
    CreateKeepsOrder(t, name, objectBytes);
    if GetTopicId(t, name) == 0 && |t.topics| < MAX_TOPIC_COUNT {
      assert made.table.topics[|t.topics|].name == name;
      assert FindName(made.table.topics, name) == Some(|t.topics|);
    }
    LookupsInverse(made.table, name, made.id);
  }

  lemma PublishStep(n: Node, p: Publish, env: Env)
    requires InOrder(n.topics) && !Short(p.topic)
    ensures
      var r := Handle(n, FromBroker(BrokerReceive.PublishPacket(p), env));
      var known := GetTopicId(n.topics, p.topic);
      if known == 0 && |n.topics.topics| == MAX_TOPIC_COUNT then r == Reply(n, [])
      else
        var topicId := GetTopicId(r.st.topics, p.topic);
        && topicId != 0 && NameOfId(r.st.topics, topicId) == Some(p.topic)
        && Delivers(p, r.outs, topicId, known == 0)
        && DownstreamFlags(p) % 4 == 0
  {
    CreateMakesKnown(n.topics, p.topic, env.objectBytes);
    LookupsInverse(n.topics, p.topic, GetTopicId(n.topics, p.topic));
    NormalType(p);
    PublishCases(n, p, env);
  }

  lemma NormalType(p: Publish)
    requires |p.topic| != 2
    ensures DownstreamFlags(p) % 4 == 0
  {
  }

  lemma PublishCases(n: Node, p: Publish, env: Env)
    requires |p.topic| != 2
    ensures
      var r := Handle(n, FromBroker(BrokerReceive.PublishPacket(p), env));
      var made := CreateTopic(n.topics, p.topic, env.objectBytes);
      var known := GetTopicId(n.topics, p.topic);
      if known != 0 then r.st == n && Delivers(p, r.outs, known, false)
      else
        && r.st == n.(topics := made.table)
        && if made.id == 0 then r.outs == [] else Delivers(p, r.outs, made.id, true)
  {
  }

  /** Downstream topic agreement. Every broker PUBLISH of every run is queued for the client under
      an id that the registry maps to the broker's topic name from then on until the next clean
      session, after a REGISTER of the same id and name exactly if the name was unknown; and it is
      dropped exactly if the name is unknown and the registry is full. */
  lemma DownstreamAgreement(id: Str, log: seq<Item>, n: nat, later: nat)
    requires AllOrdinary(log) && n < later <= |log| && SameSession(log, n + 1, later)
    requires log[n].FromBroker? && log[n].packet.PublishPacket? && |log[n].packet.p.topic| != 2
    ensures
      var p, t := log[n].packet.p, At(id, log, n).topics;
      var known := GetTopicId(t, p.topic);
      if known == 0 && |t.topics| == 50 then OutsAt(id, log, n) == []
      else exists topicId: uint16 ::
        && Delivers(p, OutsAt(id, log, n), topicId, known == 0)
        && NameOfId(At(id, log, later).topics, topicId) == Some(p.topic)
  {
    var s, p := At(id, log, n), log[n].packet.p;
    RegistryInOrder(id, log, n);
    if !(GetTopicId(s.topics, p.topic) == 0 && |s.topics.topics| == 50) {
      var topicId := DeliveredId(s, p, log[n].env, OutsAt(id, log, n), At(id, log, n + 1).topics);
      IdsLast(id, log, n + 1, later, topicId);
    } else {
      PublishStep(s, p, log[n].env);
    }
  }

  lemma DeliveredId(n: Node, p: Publish, env: Env, outs: seq<Out<Item>>, now: Table) returns (topicId: uint16)
    requires InOrder(n.topics) && !Short(p.topic) && !(GetTopicId(n.topics, p.topic) == 0 && |n.topics.topics| == 50)
    requires outs == Handle(n, FromBroker(BrokerReceive.PublishPacket(p), env)).outs
    requires now == Handle(n, FromBroker(BrokerReceive.PublishPacket(p), env)).st.topics
    ensures Delivers(p, outs, topicId, GetTopicId(n.topics, p.topic) == 0) && NameOfId(now, topicId) == Some(p.topic)
  {
    PublishStep(n, p, env);
    topicId := GetTopicId(now, p.topic);
  }

  /** A REGACK for this REGISTER. With the code for accepted, id 0 is given exactly when the name
      is unknown and there is no room; any other id stands for the name in `now`. */
  ghost predicate Told(m: SnMessage, before: Table, outs: seq<Out<Item>>, topicId: uint16, now: Table)
    requires m.SnRegister?
  {
    && outs == [ToClient(ForClient(SnRegack(topicId, m.msgId, 0)))]
    && (topicId == 0 <==> GetTopicId(before, m.name) == 0 && |before.topics| == MAX_TOPIC_COUNT)
    && (topicId != 0 ==> NameOfId(now, topicId) == Some(m.name))
  }

  ghost predicate Registered(m: SnMessage, before: Table, outs: seq<Out<Item>>, now: Table)
    requires m.SnRegister?
  {
    exists topicId: uint16 :: Told(m, before, outs, topicId, now)
  }

  lemma RegisterStep(n: Node, m: SnMessage, env: Env)
    requires InOrder(n.topics) && m.SnRegister? && !Short(m.name)
    ensures
      var r := Handle(n, FromClient(m, env));
      Registered(m, n.topics, r.outs, r.st.topics)
  {
    var made := CreateTopic(n.topics, m.name, env.objectBytes);
    CreateMakesKnown(n.topics, m.name, env.objectBytes);
    assert Told(m, n.topics, Handle(n, FromClient(m, env)).outs, made.id, made.table);
  }

  lemma ToldLasts(
    id: Str, log: seq<Item>, n: nat, later: nat,
    m: SnMessage, before: Table, outs: seq<Out<Item>>, topicId: uint16)
    requires AllOrdinary(log) && n <= later <= |log| && SameSession(log, n, later)
    requires m.SnRegister? && Told(m, before, outs, topicId, At(id, log, n).topics)
    ensures Told(m, before, outs, topicId, At(id, log, later).topics)
  {
    if topicId != 0 {
      IdsLast(id, log, n, later, topicId);
    }
  }

  /** The same for the ids a client asks for: what REGACK tells holds until the next clean
      session. */
  lemma RegackAgreement(id: Str, log: seq<Item>, n: nat, later: nat)
    requires AllOrdinary(log) && n < later <= |log| && SameSession(log, n + 1, later)
    requires log[n].FromClient? && log[n].sn.SnRegister?
    ensures Registered(log[n].sn, At(id, log, n).topics, OutsAt(id, log, n), At(id, log, later).topics)
  {
    ToldAt(id, log, n);
    var now := At(id, log, n + 1).topics;
    var topicId: uint16 :| Told(log[n].sn, At(id, log, n).topics, OutsAt(id, log, n), topicId, now);
    ToldLasts(id, log, n + 1, later, log[n].sn, At(id, log, n).topics, OutsAt(id, log, n), topicId);
  }

  lemma ToldAt(id: Str, log: seq<Item>, n: nat)
    requires AllOrdinary(log) && n < |log| && log[n].FromClient? && log[n].sn.SnRegister?
    ensures Registered(log[n].sn, At(id, log, n).topics, OutsAt(id, log, n), At(id, log, n + 1).topics)
  {
    RegistryInOrder(id, log, n);
    RegisterStep(At(id, log, n), log[n].sn, log[n].env);
  }

  /** An UNSUBSCRIBE of a topic name reaches the broker without the name. With ordinary topics the
      forwarded name is the client's exactly if the type says two characters, or the name is empty
      and the type says a name, or an id that the bytes after the message do not happen to hold. */
  lemma UnsubscribeKeepsNameIff(n: Node, m: SnMessage, env: Env)
    requires InOrder(n.topics) && m.SnUnsubscribe?
    ensures
      var idType := m.flags % 4;
      var named := ToBroker(ForBroker(MqUnsubscribe(Unsubscribe(2, m.msgId, m.name))));
      var nameless := idType == 0 || (idType == TYPE_PREDEFINED && NameOfId(n.topics, env.stray).None?);
      Handle(n, FromClient(m, env)).outs == [named] <==> idType == TYPE_SHORT || (nameless && m.name == [])
  {
    assert NameOfId(n.topics, 0).None?;
  }
}
