/** The handlers inside the five tasks: what the protocol results say about every interleaving. */
module EndToEnd {
  import opened Wrappers
  import opened Bytes
  import opened MqttCodec
  import opened Pipeline
  import opened Gateway
  import opened GatewayRuns
  import PipelineProof
  import PipelineDrain
  import Acknowledgements
  import WillHandshake
  import TopicAgreement
  import TopicRegistry

  /** The gateway's handlers, with the node id of each client. */
  function GatewayMachine(ids: Client -> Str): Machine<Node, Item> {
    var init: Client -> Node := c => NewNode(ids(c));
    var step: (Node, Item) -> Handled := (n, item) => Handle(n, item);
    Machine(init, step)
  }

  /** Client messages come from the radio, broker messages from the socket. */
  predicate Typed(steps: seq<Step<Item>>) {
    forall i | 0 <= i < |steps| :: steps[i].Arrive? ==>
      if steps[i].src.up then steps[i].m.FromClient? else steps[i].m.FromBroker?
  }

  // ---------- The sequential machine is a run of the handlers ----------

  function Items(log: seq<Entry<Item>>): (items: seq<Item>)
    ensures |items| == |log| && forall i | 0 <= i < |log| :: items[i] == log[i].m
  {
    if log == [] then [] else Items(log[..|log| - 1]) + [log[|log| - 1].m]
  }

  function ToRadio(replies: seq<seq<Out<Item>>>): seq<Item> {
    if replies == [] then [] else ToRadio(replies[..|replies| - 1]) + ClientOuts(replies[|replies| - 1])
  }

  function ToSocket(replies: seq<seq<Out<Item>>>): seq<Item> {
    if replies == [] then [] else ToSocket(replies[..|replies| - 1]) + BrokerOuts(replies[|replies| - 1])
  }

  function ClientSent(id: Str, log: seq<Item>): seq<Item> {
    ToRadio(Replies(id, log, |log|))
  }

  function BrokerSent(id: Str, log: seq<Item>): seq<Item> {
    ToSocket(Replies(id, log, |log|))
  }

  lemma SentSnoc(replies: seq<seq<Out<Item>>>, outs: seq<Out<Item>>)
    ensures ToRadio(replies + [outs]) == ToRadio(replies) + ClientOuts(outs)
    ensures ToSocket(replies + [outs]) == ToSocket(replies) + BrokerOuts(outs)
  {
    assert (replies + [outs])[..|replies|] == replies;
  }

  lemma {:induction false} RunPrefix(id: Str, log: seq<Item>, more: seq<Item>, n: nat)
    requires n <= |log| && log <= more
    ensures At(id, log, n) == At(id, more, n) && Replies(id, log, n) == Replies(id, more, n)
    decreases n
  {
    if n > 0 {
      RunPrefix(id, log, more, n - 1);
      RepliesSnoc(id, log, n - 1);
      RepliesSnoc(id, more, n - 1);
    }
  }

  lemma RepliesSnoc(id: Str, log: seq<Item>, n: nat)
    requires n < |log|
    ensures Replies(id, log, n + 1) == Replies(id, log, n) + [OutsAt(id, log, n)]
  {
  }

  lemma {:induction false} SequentialIsRun(ids: Client -> Str, c: Client, log: seq<Entry<Item>>)
    ensures Sequential(GatewayMachine(ids), c, log) ==
      Result(At(ids(c), Items(log), |log|), BrokerSent(ids(c), Items(log)), ClientSent(ids(c), Items(log)))
    decreases |log|
  {
    if log != [] {
      var before, items := log[..|log| - 1], Items(log);
      SequentialIsRun(ids, c, before);
      RunPrefix(ids(c), Items(before), items, |before|);
      RepliesSnoc(ids(c), items, |before|);
      SentSnoc(Replies(ids(c), items, |before|), OutsAt(ids(c), items, |before|));
    }
  }

  lemma {:induction false} OutsMember(outs: seq<Out<Item>>, x: Item)
    ensures x in ClientOuts(outs) ==> ToClient(x) in outs
    ensures x in BrokerOuts(outs) ==> ToBroker(x) in outs
  {
    if outs != [] {
      OutsMember(outs[1..], x);
    }
  }

  lemma {:induction false} RadioMember(replies: seq<seq<Out<Item>>>, x: Item) returns (j: nat)
    requires x in ToRadio(replies)
    ensures j < |replies| && ToClient(x) in replies[j]
  {
    var n := |replies| - 1;
    if x in ClientOuts(replies[n]) {
      OutsMember(replies[n], x);
      j := n;
    } else {
      j := RadioMember(replies[..n], x);
    }
  }

  lemma ClientSentAt(id: Str, log: seq<Item>, n: nat, x: Item) returns (j: nat)
    requires n <= |log| && x in ToRadio(Replies(id, log, n))
    ensures j < n && ToClient(x) in OutsAt(id, log, j)
  {
    j := RadioMember(Replies(id, log, n), x);
  }

  // ---------- Where messages came from ----------

  ghost predicate ArrivedTyped(arrived: map<Source, seq<Item>>) {
    forall src: Source, x: Item | x in Of(arrived, src) :: if src.up then x.FromClient? else x.FromBroker?
  }

  lemma ArrivalKeepsTyped(arrived: map<Source, seq<Item>>, src: Source, m: Item)
    requires ArrivedTyped(arrived) && if src.up then m.FromClient? else m.FromBroker?
    ensures ArrivedTyped(arrived[src := Of(arrived, src) + [m]])
  {
  }

  lemma {:induction false} ArrivalsAreTyped(h: Machine<Node, Item>, steps: seq<Step<Item>>)
    requires Typed(steps)
    ensures ArrivedTyped(Exec(h, steps).arrived)
    decreases |steps|
  {
    if steps != [] {
      var before, step := steps[..|steps| - 1], steps[|steps| - 1];
      ArrivalsAreTyped(h, before);
      PipelineDrain.ArrivedStep(h, Exec(h, before), step);
      if step.Arrive? {
        ArrivalKeepsTyped(Exec(h, before).arrived, step.src, step.m);
      }
    }
  }

  lemma {:induction false} SideMember(log: seq<Entry<Item>>, j: nat)
    requires j < |log|
    ensures log[j].m in Side(log, log[j].up)
    decreases |log|
  {
    if j < |log| - 1 {
      SideMember(log[..|log| - 1], j);
    }
  }

  /** Every message a handler took had arrived from its side. */
  ghost predicate TakenFrom(arrived: map<Source, seq<Item>>, c: Client, x: Item) {
    && (x.FromClient? || x.FromBroker?)
    && (x.FromClient? ==> x in Of(arrived, Source(c, true)))
    && (x.FromBroker? ==> x in Of(arrived, Source(c, false)))
  }

  lemma TakenHasArrived(ids: Client -> Str, steps: seq<Step<Item>>, c: Client, log: seq<Entry<Item>>, j: nat)
    requires Typed(steps) && log == Of(Exec(GatewayMachine(ids), steps).log, c) && j < |log|
    ensures TakenFrom(Exec(GatewayMachine(ids), steps).arrived, c, log[j].m)
  {
    var h := GatewayMachine(ids);
    PipelineProof.PipelineRefinesSequential(h, steps, c);
    ArrivalsAreTyped(h, steps);
    TakenByParts(Exec(h, steps).arrived, c, log, j);
  }

  lemma TakenByParts(arrived: map<Source, seq<Item>>, c: Client, log: seq<Entry<Item>>, j: nat)
    requires j < |log| && ArrivedTyped(arrived)
    requires Side(log, true) <= Of(arrived, Source(c, true)) && Side(log, false) <= Of(arrived, Source(c, false))
    ensures TakenFrom(arrived, c, log[j].m)
  {
    SideMember(log, j);
    var x := log[j].m;
    if log[j].up {
      TypedMember(arrived, Source(c, true), Side(log, true), x);
    } else {
      TypedMember(arrived, Source(c, false), Side(log, false), x);
    }
  }

  lemma TypedMember(arrived: map<Source, seq<Item>>, src: Source, taken: seq<Item>, x: Item)
    requires ArrivedTyped(arrived) && taken <= Of(arrived, src) && x in taken
    ensures x in Of(arrived, src) && if src.up then x.FromClient? else x.FromBroker?
  {
    PrefixMember(taken, Of(arrived, src), x);
  }

  lemma PrefixMember(a: seq<Item>, b: seq<Item>, x: Item)
    requires a <= b && x in a
    ensures x in b
  {
    var i :| 0 <= i < |a| && a[i] == x;
    assert b[i] == x;
  }

  /** State and outputs of a client, as a run of its handlers. */
  lemma ClientRun(ids: Client -> Str, steps: seq<Step<Item>>, c: Client)
    ensures
      var s := Exec(GatewayMachine(ids), steps);
      var items := Items(Of(s.log, c));
      && NodeOf(GatewayMachine(ids), s, c) == At(ids(c), items, |items|)
      && Of(s.toBroker, c) <= BrokerSent(ids(c), items)
      && Of(s.toClient, c) <= ClientSent(ids(c), items)
  {
    PipelineProof.PipelineRefinesSequential(GatewayMachine(ids), steps, c);
    SequentialIsRun(ids, c, Of(Exec(GatewayMachine(ids), steps).log, c));
  }

  lemma ItemsHaveArrived(ids: Client -> Str, steps: seq<Step<Item>>, c: Client)
    requires Typed(steps)
    ensures
      var s := Exec(GatewayMachine(ids), steps);
      forall x | x in Items(Of(s.log, c)) :: TakenFrom(s.arrived, c, x)
  {
    var s := Exec(GatewayMachine(ids), steps);
    var log := Of(s.log, c);
    forall x | x in Items(log) ensures TakenFrom(s.arrived, c, x) {
      var t :| 0 <= t < |log| && Items(log)[t] == x;
      TakenHasArrived(ids, steps, c, log, t);
    }
  }

  // ---------- Acknowledgements ----------

  /** A PUBLISH that arrived from the client, a PUBACK with its id that arrived from the broker,
      and an object that holds the ids of the PUBLISH. */
  ghost predicate Justifies(pub: Item, ack: Item, o: AckObject) {
    && pub.FromClient? && pub.sn.SnPublish? && pub.sn.msgId != 0
    && Acknowledgements.Acknowledges(ack, pub.sn.msgId)
    && o == AckObject(pub.sn.topicId, pub.sn.msgId)
  }

  lemma AcceptedInRun(id: Str, items: seq<Item>, k: nat) returns (i: nat, j: nat)
    requires PubAckAt(k) in ClientSent(id, items)
    ensures i < j < |items| && k < |At(id, items, |items|).pubAcks|
    ensures Justifies(items[i], items[j], At(id, items, |items|).pubAcks[k])
  {
    var n := |items|;
    j := ClientSentAt(id, items, n, PubAckAt(k));
    assert Acknowledgements.Accepts(Acknowledgements.Publishing, id, items, j, k);
    i := Acknowledgements.AcceptedFor(id, items, j, k, n);
  }

  /** What `sent` is of a run's outputs: the item is one object, once, and justified. */
  lemma AcceptedInSent(id: Str, items: seq<Item>, sent: seq<Item>, x: Item) returns (i: nat, j: nat)
    requires x in sent && sent <= ClientSent(id, items) && Acknowledgements.SaysAccepted(Acknowledgements.Publishing, x)
    ensures multiset(sent)[x] == 1 && x.PubAckAt? && x.k < |At(id, items, |items|).pubAcks|
    ensures i < j < |items| && Justifies(items[i], items[j], At(id, items, |items|).pubAcks[x.k])
  {
    PrefixMember(sent, ClientSent(id, items), x);
    var n := ClientSentAt(id, items, |items|, x);
    Acknowledgements.OnlyObjectsAccept(Acknowledgements.Publishing, id, items, n, x);
    i, j := AcceptedInRun(id, items, x.k);
    AckSentOnce(id, items, x.k);
    PrefixCount(sent, ClientSent(id, items), x);
  }

  /** In every reachable state of the five tasks, a PUBACK that says accepted and that the radio was
      given, in whatever form, is one object, given once, with the ids of a PUBLISH that came from
      this client and that the broker has acknowledged. */
  lemma EveryAcceptedAckIsJustified(ids: Client -> Str, steps: seq<Step<Item>>, c: Client, x: Item)
    requires Typed(steps) && x in Of(Exec(GatewayMachine(ids), steps).toClient, c)
    requires Acknowledgements.SaysAccepted(Acknowledgements.Publishing, x)
    ensures
      var s := Exec(GatewayMachine(ids), steps);
      var made := NodeOf(GatewayMachine(ids), s, c).pubAcks;
      && multiset(Of(s.toClient, c))[x] == 1
      && x.PubAckAt? && x.k < |made|
      && exists pub, ack | pub in Of(s.arrived, Source(c, true)) && ack in Of(s.arrived, Source(c, false)) ::
           Justifies(pub, ack, made[x.k])
  {
    var s := Exec(GatewayMachine(ids), steps);
    var items := Items(Of(s.log, c));
    ClientRun(ids, steps, c);
    ItemsHaveArrived(ids, steps, c);
    var i, j := AcceptedInSent(ids(c), items, Of(s.toClient, c), x);
    assert items[i] in items && items[j] in items;
  }

  lemma PrefixCount(a: seq<Item>, b: seq<Item>, x: Item)
    requires a <= b
    ensures multiset(a)[x] <= multiset(b)[x]
  {
    assert b == a + b[|a|..];
  }

  /** Over any replies: what is in each of them at most alone, and only if it was not sent before,
      is sent at most once. */
  lemma {:induction false} SentOnce(replies: seq<seq<Out<Item>>>, x: Item)
    requires forall m | 0 <= m < |replies| :: SingleIn(ToRadio(replies[..m]), ClientOuts(replies[m]), x)
    ensures multiset(ToRadio(replies))[x] <= 1
  {
    if replies != [] {
      var n := |replies| - 1;
      assert forall m | 0 <= m < n :: replies[..n][..m] == replies[..m];
      SentOnce(replies[..n], x);
      CountOfSum(ToRadio(replies[..n]), ClientOuts(replies[n]), x);
    }
  }

  ghost predicate SingleIn(before: seq<Item>, more: seq<Item>, x: Item) {
    x in more ==> x !in before && more == [x]
  }

  lemma CountOfSum(a: seq<Item>, b: seq<Item>, x: Item)
    requires multiset(a)[x] <= 1 && SingleIn(a, b, x)
    ensures multiset(a + b)[x] <= 1
  {
    if x in b {
      assert multiset(a)[x] == 0;
    } else {
      assert multiset(b)[x] == 0;
    }
  }

  lemma AckSentOnce(id: Str, log: seq<Item>, k: nat)
    ensures multiset(ClientSent(id, log))[PubAckAt(k)] <= 1
  {
    var rs := Replies(id, log, |log|);
    forall m | 0 <= m < |rs| ensures SingleIn(ToRadio(rs[..m]), ClientOuts(rs[m]), PubAckAt(k)) {
      assert rs[..m] == Replies(id, log, m);
      AckNotRepeated(id, log, m, k);
    }
    SentOnce(rs, PubAckAt(k));
  }

  lemma AckNotRepeated(id: Str, log: seq<Item>, n: nat, k: nat)
    requires n < |log|
    ensures SingleIn(ToRadio(Replies(id, log, n)), ClientOuts(OutsAt(id, log, n)), PubAckAt(k))
  {
    var x := PubAckAt(k);
    if x in ClientOuts(OutsAt(id, log, n)) {
      OutsMember(OutsAt(id, log, n), x);
      Acknowledgements.OutsOfState(Acknowledgements.Publishing, id, log, n);
      OutsOfOne(OutsAt(id, log, n), x);
      if x in ToRadio(Replies(id, log, n)) {
        var j := ClientSentAt(id, log, n, x);
        Acknowledgements.AckQueuedOnce(Acknowledgements.Publishing, id, log, j, k, n);
      }
    }
  }

  lemma OutsOfOne(outs: seq<Out<Item>>, x: Item)
    ensures outs == [ToClient(x)] ==> ClientOuts(outs) == [x]
  {
    if outs == [ToClient(x)] {
      assert outs[1..] == [];
    }
  }

  // ---------- Will connections ----------

  /** CONNECT object k was made by the CONNECT at j. If that wanted a will, the object is out of the
      handlers' hands, and the WILLMSG at some w completed it; if not, and the client keeps to the
      protocol, it is as it was made. */
  ghost predicate HandedOver(id: Str, items: seq<Item>, j: nat, k: nat, connects: seq<Connect>, slot: Option<nat>) {
    && WillHandshake.MadeBy(id, items, j, k) && k < |connects|
    && (WillHandshake.WantsWill(items[j]) ==> slot != Some(k) && WillHandshake.HasCompleted(id, items, j, connects[k]))
    && (!WillHandshake.WantsWill(items[j]) && WillHandshake.Disciplined(items)
        ==> connects[k] == WillHandshake.Opened(id, items[j]))
  }

  lemma ConnectInRun(id: Str, items: seq<Item>, k: nat) returns (j: nat)
    requires k in WillHandshake.HandshakeAt(id, items, |items|).queued
    ensures
      var now := WillHandshake.HandshakeAt(id, items, |items|);
      && HandedOver(id, items, j, k, now.connects, now.slot)
      && (WillHandshake.WantsWill(items[j]) ==> WillHandshake.Count(now.queued, k) == 1)
  {
    j := WillHandshake.QueuedWillsAreComplete(id, items, k);
    if !WillHandshake.WantsWill(items[j]) && WillHandshake.Disciplined(items) {
      WillHandshake.QueuedAsSaid(id, items, j, k, |items|);
    }
  }

  lemma {:induction false} CountAppend(a: seq<nat>, b: seq<nat>, k: nat)
    ensures WillHandshake.Count(a + b, k) == WillHandshake.Count(a, k) + WillHandshake.Count(b, k)
  {
    if b == [] {
      assert a + b == a;
    } else {
      var front := b[..|b| - 1];
      CountAppend(a, front, k);
      assert (a + b)[..|a + b| - 1] == a + front;
    }
  }

  lemma {:induction false} RefsCount(outs: seq<Out<Item>>, k: nat)
    ensures multiset(BrokerOuts(outs))[ConnectAt(k)] == WillHandshake.Count(WillHandshake.ConnectRefs(outs), k)
  {
    if outs != [] {
      RefsCount(outs[1..], k);
      var o := outs[0];
      var first := if o.ToBroker? && o.x.ConnectAt? then [o.x.k] else [];
      CountAppend(first, WillHandshake.ConnectRefs(outs[1..]), k);
      assert first != [] ==> first[..0] == [];
    }
  }

  function RefsOf(replies: seq<seq<Out<Item>>>): seq<nat> {
    if replies == [] then []
    else RefsOf(replies[..|replies| - 1]) + WillHandshake.ConnectRefs(replies[|replies| - 1])
  }

  lemma {:induction false} SocketCount(replies: seq<seq<Out<Item>>>, k: nat)
    ensures multiset(ToSocket(replies))[ConnectAt(k)] == WillHandshake.Count(RefsOf(replies), k)
  {
    if replies != [] {
      var before, outs := replies[..|replies| - 1], replies[|replies| - 1];
      SocketCount(before, k);
      RefsCount(outs, k);
      CountAppend(RefsOf(before), WillHandshake.ConnectRefs(outs), k);
    }
  }

  lemma {:induction false} QueuedIsRefs(id: Str, log: seq<Item>, n: nat)
    requires n <= |log|
    ensures WillHandshake.QueuedConnects(id, log, n) == RefsOf(Replies(id, log, n))
    decreases n
  {
    if n > 0 {
      QueuedIsRefs(id, log, n - 1);
      RepliesSnoc(id, log, n - 1);
      RefsSnoc(Replies(id, log, n - 1), OutsAt(id, log, n - 1));
    }
  }

  lemma RefsSnoc(replies: seq<seq<Out<Item>>>, outs: seq<Out<Item>>)
    ensures RefsOf(replies + [outs]) == RefsOf(replies) + WillHandshake.ConnectRefs(outs)
  {
    assert (replies + [outs])[..|replies|] == replies;
  }

  lemma ConnectSent(id: Str, items: seq<Item>, sent: seq<Item>, k: nat) returns (j: nat)
    requires ConnectAt(k) in sent && sent <= BrokerSent(id, items)
    ensures
      var now := At(id, items, |items|);
      && HandedOver(id, items, j, k, now.connects, now.connect)
      && (WillHandshake.WantsWill(items[j]) ==> multiset(sent)[ConnectAt(k)] == 1)
  {
    PrefixMember(sent, BrokerSent(id, items), ConnectAt(k));
    SocketCount(Replies(id, items, |items|), k);
    QueuedIsRefs(id, items, |items|);
    WillHandshake.HandshakeOfState(id, items, |items|);
    WillHandshake.CountZero(WillHandshake.QueuedConnects(id, items, |items|), k);
    j := ConnectInRun(id, items, k);
    PrefixCount(sent, BrokerSent(id, items), ConnectAt(k));
  }

  /** In every reachable state, each CONNECT object handed to the broker's socket goes back to one
      CONNECT that this client sent. If that one wanted a will, the object was handed over once, is
      out of the handlers' hands, and is complete: Will flag, topic, message, client id and duration
      are those of one and the same handshake. If not, it is what that CONNECT said, provided the
      client sends WILLTOPIC and WILLMSG only when asked for them. */
  lemma EveryConnectIsComplete(ids: Client -> Str, steps: seq<Step<Item>>, c: Client, k: nat)
    requires Typed(steps) && ConnectAt(k) in Of(Exec(GatewayMachine(ids), steps).toBroker, c)
    ensures
      var s := Exec(GatewayMachine(ids), steps);
      var items, now := Items(Of(s.log, c)), NodeOf(GatewayMachine(ids), s, c);
      && (forall x | x in items :: TakenFrom(s.arrived, c, x))
      && exists j: nat ::
           && HandedOver(ids(c), items, j, k, now.connects, now.connect)
           && (WillHandshake.WantsWill(items[j]) ==> multiset(Of(s.toBroker, c))[ConnectAt(k)] == 1)
  {
    var s := Exec(GatewayMachine(ids), steps);
    ClientRun(ids, steps, c);
    ItemsHaveArrived(ids, steps, c);
    var j := ConnectSent(ids(c), Items(Of(s.log, c)), Of(s.toBroker, c), k);
  }

  // ---------- Deliveries ----------

  /** A normal-type PUBLISH comes from nothing but a PUBLISH of the broker. */
  lemma OnlyFromPublish(n: Node, item: Item, m: SnMessage)
    requires m.SnPublish? && m.flags % 4 == 0 && ToClient(ForClient(m)) in Handle(n, item).outs
    ensures item.FromBroker? && item.packet.PublishPacket?
  {
  }

  /** The broker's PUBLISH, and the id that stands for its topic in `now`. */
  ghost predicate Carries(item: Item, m: SnMessage, now: TopicRegistry.Table)
    requires m.SnPublish?
  {
    && item.FromBroker? && item.packet.PublishPacket?
    && item.packet.p.payload == m.data && item.packet.p.messageId == m.msgId
    && TopicRegistry.NameOfId(now, m.topicId) == Some(item.packet.p.topic)
  }

  lemma TypeSays(p: Publish)
    ensures DownstreamFlags(p) % 4 == 0 <==> |p.topic| != 2
  {
  }

  lemma DeliveryStep(n: Node, item: Item, m: SnMessage)
    requires m.SnPublish? && m.flags % 4 == 0 && ToClient(ForClient(m)) in Handle(n, item).outs
    requires TopicRegistry.InOrder(n.topics) && TopicAgreement.Ordinary(item)
    ensures Carries(item, m, Handle(n, item).st.topics)
  {
    OnlyFromPublish(n, item, m);
    TypeSays(item.packet.p);
    TopicAgreement.PublishStep(n, item.packet.p, item.env);
  }

  /** The broker's PUBLISH at j is what m carries, and the id in m stands for its topic from then on
      until the next clean session. */
  ghost predicate Addressed(id: Str, items: seq<Item>, j: nat, m: SnMessage)
    requires m.SnPublish?
  {
    && j < |items|
    && forall later: nat | j < later <= |items| && TopicAgreement.SameSession(items, j + 1, later) ::
         Carries(items[j], m, At(id, items, later).topics)
  }

  lemma DeliveredInRun(id: Str, items: seq<Item>, m: SnMessage) returns (j: nat)
    requires TopicAgreement.AllOrdinary(items) && m.SnPublish? && m.flags % 4 == 0
    requires ForClient(m) in ClientSent(id, items)
    ensures Addressed(id, items, j, m) && items[j].FromBroker?
  {
    j := ClientSentAt(id, items, |items|, ForClient(m));
    TopicAgreement.RegistryInOrder(id, items, j);
    DeliveryStep(At(id, items, j), items[j], m);
    forall later: nat | j < later <= |items| && TopicAgreement.SameSession(items, j + 1, later)
      ensures Carries(items[j], m, At(id, items, later).topics)
    {
      TopicAgreement.IdsLast(id, items, j + 1, later, m.topicId);
    }
  }

  /** In every reachable state, for a client with ordinary topic names and any number of sessions:
      a PUBLISH of normal type that the radio was given carries payload and message id of a PUBLISH
      that came from the broker, under the id by which the client's registry knows its topic from
      then on until the next clean session. */
  lemma EveryDeliveryIsAddressed(ids: Client -> Str, steps: seq<Step<Item>>, c: Client, m: SnMessage)
    requires Typed(steps)
    requires TopicAgreement.AllOrdinary(Of(Exec(GatewayMachine(ids), steps).arrived, Source(c, true)))
    requires TopicAgreement.AllOrdinary(Of(Exec(GatewayMachine(ids), steps).arrived, Source(c, false)))
    requires m.SnPublish? && m.flags % 4 == 0 && ForClient(m) in Of(Exec(GatewayMachine(ids), steps).toClient, c)
    ensures
      var s := Exec(GatewayMachine(ids), steps);
      var items := Items(Of(s.log, c));
      exists j: nat :: Addressed(ids(c), items, j, m) && items[j] in Of(s.arrived, Source(c, false))
  {
    var s := Exec(GatewayMachine(ids), steps);
    var items := Items(Of(s.log, c));
    ClientRun(ids, steps, c);
    ItemsHaveArrived(ids, steps, c);
    PrefixMember(Of(s.toClient, c), ClientSent(ids(c), items), ForClient(m));
    TakenIsOrdinary(s.arrived, c, items);
    var j := DeliveredInRun(ids(c), items, m);
    assert items[j] in items;
  }

  lemma TakenIsOrdinary(arrived: map<Source, seq<Item>>, c: Client, items: seq<Item>)
    requires TopicAgreement.AllOrdinary(Of(arrived, Source(c, true)))
    requires TopicAgreement.AllOrdinary(Of(arrived, Source(c, false)))
    requires forall x | x in items :: TakenFrom(arrived, c, x)
    ensures TopicAgreement.AllOrdinary(items)
  {
    forall t | 0 <= t < |items| ensures TopicAgreement.Ordinary(items[t]) {
      var from := Of(arrived, Source(c, items[t].FromClient?));
      assert items[t] in items && items[t] in from;
      var i :| 0 <= i < |from| && from[i] == items[t];
    }
  }
}
