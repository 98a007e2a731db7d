/** Acknowledgements over runs of the handlers: the PUBACK slot and the SUBACK slot. */
module Acknowledgements {
  import opened Wrappers
  import opened Bytes
  import opened TopicRegistry
  import opened Pipeline
  import opened Gateway
  import opened GatewayRuns
  import opened AckSlot
  import Direct = Answers
  import BrokerReceive

  datatype Kind = Publishing | Subscribing

  /** A SUBSCRIBE of a topic name: types normal and short. */
  predicate ByName(m: SnMessage)
    requires m.SnSubscribe?
  {
    m.flags % 4 != TYPE_PREDEFINED && m.flags % 4 != TYPE_RESERVED
  }

  /** What a message means for a slot: a PUBLISH on a known topic id, or a SUBSCRIBE of a name,
      with a non-zero message id; or the broker's acknowledgement. */
  function EventOf(kind: Kind, n: Node, item: Item): AckEvent {
    match kind
    case Publishing =>
      if item.FromClient? && item.sn.SnPublish? && item.sn.msgId != 0 && NameOfId(n.topics, item.sn.topicId).Some? then
        Forward(item.sn.topicId, item.sn.msgId)
      else if item.FromBroker? && item.packet.PubAck? then Ack(item.packet.id)
      else Other
    case Subscribing =>
      if item.FromClient? && item.sn.SnSubscribe? && item.sn.msgId != 0 && ByName(item.sn) then
        Forward(CreateTopic(n.topics, item.sn.name, item.env.objectBytes).id, item.sn.msgId)
      else if item.FromBroker? && item.packet.SubAck? then Ack(item.packet.id)
      else Other
  }

  function Events(kind: Kind, id: Str, log: seq<Item>, n: nat): (evs: seq<AckEvent>)
    requires n <= |log|
    ensures |evs| == n
  {
    if n == 0 then [] else Events(kind, id, log, n - 1) + [EventOf(kind, At(id, log, n - 1), log[n - 1])]
  }

  function Ids(os: seq<SubAckObject>): (ids: seq<AckObject>)
    ensures |ids| == |os| && forall i | 0 <= i < |os| :: ids[i] == os[i].ids
  {
    seq(|os|, i requires 0 <= i < |os| => os[i].ids)
  }

  function SlotOf(kind: Kind, n: Node): Slot {
    match kind
    case Publishing => Slot(n.pubAcks, n.waitedPubAck)
    case Subscribing => Slot(Ids(n.subAcks), n.waitedSubAck)
  }

  function AckAt(kind: Kind, k: nat): Item {
    if kind.Publishing? then PubAckAt(k) else SubAckAt(k)
  }

  predicate NoAck(kind: Kind, outs: seq<Out<Item>>) {
    forall i | 0 <= i < |outs| ::
      outs[i].ToClient? ==> if kind.Publishing? then !outs[i].y.PubAckAt? else !outs[i].y.SubAckAt?
  }

  ghost predicate Answering(kind: Kind, s: Slot, ev: AckEvent, outs: seq<Out<Item>>) {
    if s.Answered(ev) then outs == [ToClient(AckAt(kind, s.waited.value))] else NoAck(kind, outs)
  }

  ghost predicate Steps(kind: Kind, n: Node, item: Item) {
    var r, ev := Handle(n, item), EventOf(kind, n, item);
    SlotOf(kind, r.st) == SlotOf(kind, n).Next(ev) && Answering(kind, SlotOf(kind, n), ev, r.outs)
  }

  lemma ClientStep(kind: Kind, n: Node, m: SnMessage, env: Env)
    requires !m.SnPublish? && !m.SnSubscribe?
    ensures Steps(kind, n, FromClient(m, env))
  {
  }

  lemma PublishingStep(kind: Kind, n: Node, m: SnMessage, env: Env)
    requires m.SnPublish?
    ensures Steps(kind, n, FromClient(m, env))
  {
  }

  lemma SubscribingStep(kind: Kind, n: Node, m: SnMessage, env: Env)
    requires m.SnSubscribe?
    ensures Steps(kind, n, FromClient(m, env))
  {
  }

  lemma BrokerStep(kind: Kind, n: Node, packet: BrokerReceive.BrokerPacket, env: Env)
    ensures Steps(kind, n, FromBroker(packet, env))
  {
  }

  lemma AckStep(kind: Kind, n: Node, item: Item)
    ensures Steps(kind, n, item)
  {
    match item {
      case FromBroker(packet, env) => BrokerStep(kind, n, packet, env);
      case FromClient(m, env) =>
        if m.SnPublish? {
          PublishingStep(kind, n, m, env);
        } else if m.SnSubscribe? {
          SubscribingStep(kind, n, m, env);
        } else {
          ClientStep(kind, n, m, env);
        }
      case _ =>
    }
  }

  lemma {:induction false} SlotOfState(kind: Kind, id: Str, log: seq<Item>, n: nat)
    requires n <= |log|
    ensures SlotOf(kind, At(id, log, n)) == SlotAfter(Events(kind, id, log, n))
    decreases n
  {
    if n > 0 {
      SlotOfState(kind, id, log, n - 1);
      AckStep(kind, At(id, log, n - 1), log[n - 1]);
      SlotSnoc(Events(kind, id, log, n - 1), EventOf(kind, At(id, log, n - 1), log[n - 1]));
    }
  }

  lemma SlotSnoc(evs: seq<AckEvent>, ev: AckEvent)
    ensures SlotAfter(evs + [ev]) == SlotAfter(evs).Next(ev)
  {
    assert (evs + [ev])[..|evs|] == evs;
  }

  lemma OutsOfState(kind: Kind, id: Str, log: seq<Item>, j: nat)
    requires j < |log|
    ensures Answering(kind, SlotAfter(Events(kind, id, log, j)), EventOf(kind, At(id, log, j), log[j]), OutsAt(id, log, j))
  {
    SlotOfState(kind, id, log, j);
    AckStep(kind, At(id, log, j), log[j]);
  }

  lemma EventsOne(kind: Kind, id: Str, log: seq<Item>, n: nat)
    requires n < |log|
    ensures Events(kind, id, log, n + 1)[..n] == Events(kind, id, log, n)
  {
  }

  lemma WholePrefix(a: seq<AckEvent>)
    ensures a[..|a|] == a
  {
  }

  lemma PrefixOfPrefix(a: seq<AckEvent>, b: seq<AckEvent>, c: seq<AckEvent>, m: nat)
    requires m <= |b| <= |a| && a[..|b|] == b && b[..m] == c
    ensures a[..m] == c
  {
  }

  lemma EventsPrefixNext(kind: Kind, id: Str, log: seq<Item>, m: nat, n: nat, now: seq<AckEvent>, was: seq<AckEvent>)
    requires m < n <= |log| && now == Events(kind, id, log, n) && Events(kind, id, log, n - 1)[..m] == was
    ensures now[..m] == was
  {
    EventsOne(kind, id, log, n - 1);
    PrefixOfPrefix(now, Events(kind, id, log, n - 1), was, m);
  }

  ghost predicate Extends(evs: seq<AckEvent>, was: seq<AckEvent>) {
    |was| <= |evs| && evs[..|was|] == was
  }

  lemma {:induction false} EventsExtend(kind: Kind, id: Str, log: seq<Item>, m: nat, n: nat, was: seq<AckEvent>)
    returns (now: seq<AckEvent>)
    requires m <= n <= |log| && was == Events(kind, id, log, m)
    ensures now == Events(kind, id, log, n) && Extends(now, was)
    decreases n
  {
    if m == n {
      now := was;
    } else {
      var before := EventsExtend(kind, id, log, m, n - 1, was);
      now := Events(kind, id, log, n);
      EventsPrefixNext(kind, id, log, m, n, now, was);
    }
  }

  lemma EventsPrefix(kind: Kind, id: Str, log: seq<Item>, m: nat, n: nat)
    requires m <= n <= |log|
    ensures Events(kind, id, log, n)[..m] == Events(kind, id, log, m)
  {
    var now := EventsExtend(kind, id, log, m, n, Events(kind, id, log, m));
  }

  lemma EventAt(kind: Kind, id: Str, log: seq<Item>, i: nat)
    requires i < |log|
    ensures Events(kind, id, log, |log|)[i] == EventOf(kind, At(id, log, i), log[i])
  {
    EventsPrefix(kind, id, log, i + 1, |log|);
    assert Events(kind, id, log, |log|)[i] == Events(kind, id, log, |log|)[..i + 1][i];
  }

  /** Message j hands the client the accepted acknowledgement object k. */
  ghost predicate Accepts(kind: Kind, id: Str, log: seq<Item>, j: nat, k: nat)
    requires j < |log|
  {
    ToClient(AckAt(kind, k)) in OutsAt(id, log, j)
  }

  /** An acknowledgement that says accepted, in either form: the object that waited, or a message
      made on the spot. A SUBACK of the time topic, id 1, is made without asking the broker. */
  predicate SaysAccepted(kind: Kind, x: Item) {
    match kind
    case Publishing => x.PubAckAt? || (x.ForClient? && x.out.SnPubAck? && x.out.returnCode == 0)
    case Subscribing =>
      x.SubAckAt? || (x.ForClient? && x.out.SnSuback? && x.out.returnCode == 0 && x.out.topicId != 1)
  }

  ghost predicate Accepting(kind: Kind, outs: seq<Out<Item>>) {
    exists x :: ToClient(x) in outs && SaysAccepted(kind, x)
  }

  /** Accepted is only what waited. */
  lemma OnlyObjectsAccept(kind: Kind, id: Str, log: seq<Item>, j: nat, x: Item)
    requires j < |log| && ToClient(x) in OutsAt(id, log, j) && SaysAccepted(kind, x)
    ensures !x.ForClient? && x == AckAt(kind, x.k)
  {
    if x.ForClient? {
      match kind {
        case Publishing => Direct.PubAckIff(id, log, j, x.out.topicId, x.out.msgId, x.out.returnCode);
        case Subscribing => Direct.SubackIff(id, log, j, x.out);
      }
    }
  }

  /** In every run, message j makes the gateway send an acknowledgement that says accepted if and
      only if it is the first one of the broker with the message id of the latest forwarded
      request. */
  lemma AckCorrelation(kind: Kind, id: Str, log: seq<Item>, j: nat)
    requires j < |log|
    ensures Accepting(kind, OutsAt(id, log, j)) <==> exists i: nat :: Answers(Events(kind, id, log, |log|), i, j)
  {
    ObjectCorrelation(kind, id, log, j);
    if Accepting(kind, OutsAt(id, log, j)) {
      var x :| ToClient(x) in OutsAt(id, log, j) && SaysAccepted(kind, x);
      OnlyObjectsAccept(kind, id, log, j, x);
      assert Accepts(kind, id, log, j, x.k);
    }
    if k: nat :| Accepts(kind, id, log, j, k) {
      assert SaysAccepted(kind, AckAt(kind, k));
    }
  }

  lemma ObjectCorrelation(kind: Kind, id: Str, log: seq<Item>, j: nat)
    requires j < |log|
    ensures (exists k: nat :: Accepts(kind, id, log, j, k))
      <==> (exists i: nat :: Answers(Events(kind, id, log, |log|), i, j))
  {
    var evs := Events(kind, id, log, |log|);
    var s := SlotAfter(evs[..j]);
    EventsPrefix(kind, id, log, j, |log|);
    EventAt(kind, id, log, j);
    SlotIsPending(evs[..j]);
    OutsOfState(kind, id, log, j);
    if k: nat :| Accepts(kind, id, log, j, k) {
      assert s.Answered(evs[j]);
      var i: nat :| Pending(evs[..j], i);
      AnswersPending(evs, i, j);
      assert Answers(evs, i, j);
    }
    if i: nat :| Answers(evs, i, j) {
      AnswersPending(evs, i, j);
      assert Pending(evs[..j], i);
      assert Accepts(kind, id, log, j, s.waited.value);
    }
  }

  /** This reply hands over one object, which holds these ids in the state that follows. */
  ghost predicate HandsOver(kind: Kind, outs: seq<Out<Item>>, next: Slot, topicId: uint16, msgId: uint16) {
    exists k: nat | k < |next.made| ::
      outs == [ToClient(AckAt(kind, k))] && next.made[k] == AckObject(topicId, msgId)
  }

  lemma HandsOverObject(kind: Kind, evs: seq<AckEvent>, i: nat, j: nat, outs: seq<Out<Item>>, next: Slot)
    requires Answers(evs, i, j) && Answering(kind, SlotAfter(evs[..j]), evs[j], outs) && next == SlotAfter(evs[..j + 1])
    ensures HandsOver(kind, outs, next, evs[i].topicId, evs[i].msgId)
  {
    AcceptedObject(evs, i, j);
  }

  lemma SlotInEvents(kind: Kind, id: Str, log: seq<Item>, n: nat)
    requires n <= |log|
    ensures SlotOf(kind, At(id, log, n)) == SlotAfter(Events(kind, id, log, |log|)[..n])
  {
    EventsPrefix(kind, id, log, n, |log|);
    SlotOfState(kind, id, log, n);
  }

  lemma OutsInEvents(kind: Kind, id: Str, log: seq<Item>, j: nat)
    requires j < |log|
    ensures
      var evs := Events(kind, id, log, |log|);
      Answering(kind, SlotAfter(evs[..j]), evs[j], OutsAt(id, log, j))
  {
    EventAt(kind, id, log, j);
    EventsPrefix(kind, id, log, j, |log|);
    OutsOfState(kind, id, log, j);
  }

  /** What is queued is one object, with the topic id and message id of that request. */
  lemma AckContent(kind: Kind, id: Str, log: seq<Item>, i: nat, j: nat)
    requires j < |log| && Answers(Events(kind, id, log, |log|), i, j)
    ensures
      var ev := Events(kind, id, log, |log|)[i];
      HandsOver(kind, OutsAt(id, log, j), SlotOf(kind, At(id, log, j + 1)), ev.topicId, ev.msgId)
  {
    OutsInEvents(kind, id, log, j);
    SlotInEvents(kind, id, log, j + 1);
    HandsOverObject(kind, Events(kind, id, log, |log|), i, j, OutsAt(id, log, j), SlotOf(kind, At(id, log, j + 1)));
  }

  lemma SlotAtAcceptance(kind: Kind, id: Str, log: seq<Item>, j: nat, k: nat)
    requires j < |log| && Accepts(kind, id, log, j, k)
    ensures
      var s := SlotAfter(Events(kind, id, log, j + 1));
      s.waited == None && k < |s.made|
  {
    OutsOfState(kind, id, log, j);
    SlotIsPending(Events(kind, id, log, j));
    AcceptedSlot(Events(kind, id, log, j), EventOf(kind, At(id, log, j), log[j]));
  }

  lemma ReleasedInEvents(kind: Kind, id: Str, log: seq<Item>, j: nat, k: nat, n: nat)
    requires j < n <= |log| && Accepts(kind, id, log, j, k)
    ensures Released(SlotAfter(Events(kind, id, log, j + 1)), SlotAfter(Events(kind, id, log, n)), k)
  {
    SlotAtAcceptance(kind, id, log, j, k);
    EventsPrefix(kind, id, log, j + 1, n);
    ReleasedSince(Events(kind, id, log, n), Events(kind, id, log, j + 1), j + 1, k);
  }

  lemma ReleasedSince(evs: seq<AckEvent>, before: seq<AckEvent>, m: nat, k: nat)
    requires m <= |evs| && evs[..m] == before && SlotAfter(before).waited == None && k < |SlotAfter(before).made|
    ensures Released(SlotAfter(before), SlotAfter(evs), k)
  {
    ReleasedFrom(evs, m, k);
  }

  /** Ownership: once queued for the client, the object is in the slot never again and its ids do
      not change. */
  lemma AckHandedOver(kind: Kind, id: Str, log: seq<Item>, j: nat, k: nat, n: nat)
    requires j < n <= |log| && Accepts(kind, id, log, j, k)
    ensures Released(SlotOf(kind, At(id, log, j + 1)), SlotOf(kind, At(id, log, n)), k)
  {
    ReleasedInEvents(kind, id, log, j, k, n);
    SlotOfState(kind, id, log, j + 1);
    SlotOfState(kind, id, log, n);
    ReleasedSlots(SlotAfter(Events(kind, id, log, j + 1)), SlotAfter(Events(kind, id, log, n)), k,
      SlotOf(kind, At(id, log, j + 1)), SlotOf(kind, At(id, log, n)));
  }

  lemma ReleasedSlots(a: Slot, b: Slot, k: nat, c: Slot, d: Slot)
    requires Released(a, b, k) && a == c && b == d
    ensures Released(c, d, k)
  {
  }

  /** And it is never queued a second time. */
  lemma AckQueuedOnce(kind: Kind, id: Str, log: seq<Item>, j: nat, k: nat, n: nat)
    requires j < n < |log| && Accepts(kind, id, log, j, k)
    ensures !Accepts(kind, id, log, n, k)
  {
    ReleasedInEvents(kind, id, log, j, k, n);
    OutsOfState(kind, id, log, n);
  }

  predicate Acknowledges(item: Item, id: uint16) {
    item.FromBroker? && item.packet == BrokerReceive.PubAck(id)
  }

  lemma EventIsPublish(n: Node, item: Item, ev: AckEvent)
    requires ev == EventOf(Publishing, n, item)
    ensures ev.Forward? ==>
      item.FromClient? && item.sn.SnPublish? && item.sn.msgId == ev.msgId != 0 && item.sn.topicId == ev.topicId
    ensures ev.Ack? ==> Acknowledges(item, ev.id)
  {
  }

  /** The PUBLISH an accepted PUBACK is for, and the object as it is at any later time. */
  lemma AcceptedFor(id: Str, log: seq<Item>, j: nat, k: nat, n: nat) returns (i: nat)
    requires j < n <= |log| && Accepts(Publishing, id, log, j, k)
    ensures i < j && k < |At(id, log, n).pubAcks|
    ensures log[i].FromClient? && log[i].sn.SnPublish? && log[i].sn.msgId != 0 && Acknowledges(log[j], log[i].sn.msgId)
    ensures At(id, log, n).pubAcks[k] == AckObject(log[i].sn.topicId, log[i].sn.msgId)
  {
    var evs := Events(Publishing, id, log, |log|);
    ObjectCorrelation(Publishing, id, log, j);
    i :| Answers(evs, i, j);
    EventAt(Publishing, id, log, i);
    EventAt(Publishing, id, log, j);
    EventIsPublish(At(id, log, i), log[i], evs[i]);
    EventIsPublish(At(id, log, j), log[j], evs[j]);
    AckContent(Publishing, id, log, i, j);
    AckHandedOver(Publishing, id, log, j, k, n);
  }
}
