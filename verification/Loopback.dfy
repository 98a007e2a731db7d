/** A client's PUBLISH translated, put on the wire, read back and translated again. */
module Loopback {
  import opened Wrappers
  import opened Bytes
  import opened TopicRegistry
  import opened MqttCodec
  import opened Pipeline
  import opened Gateway
  import BrokerReceive
  import SnPublish
  import Radio
  import XBeeFraming

  /** handleSnPublish, serialize, the receiving loop's deserializer, handlePublish. `rest` is what
      follows in the receive buffer. None: something else came out on the way. */
  function RoundTrip(n: Node, m: SnMessage, rest: seq<byte>, env: Env): Option<Handled>
    requires m.SnPublish?
  {
    var up := HandleSnPublish(n, m);
    if |up.outs| != 1 || !up.outs[0].ToBroker? || !up.outs[0].x.ForBroker? || !up.outs[0].x.mq.MqPublish? then None
    else
      match BrokerReceive.Take(SerializePublish(up.outs[0].x.mq.p) + rest)
      case Taken(p, _) => if p.PublishPacket? then Some(HandlePublish(up.st, p.p, env)) else None
      case _ => None
  }

  lemma RoundTripIs(n: Node, m: SnMessage, rest: seq<byte>, env: Env, name: Str)
    requires m.SnPublish? && NameOfId(n.topics, m.topicId) == Some(name)
    requires |m.data| <= 248 && |name| + |m.data| < 65528
    ensures
      var p := Publish(UpstreamFlags(m.flags), name, m.msgId, m.data);
      RoundTrip(n, m, rest, env) == Some(HandlePublish(HandleSnPublish(n, m).st, p, env))
  {
    BrokerReceive.PublishDecodedIff(Publish(UpstreamFlags(m.flags), name, m.msgId, m.data), rest);
  }

  /** Loopback. On any registry of ordinary names, a PUBLISH on a registered id comes back as one
      PUBLISH - no REGISTER - with the same topic id, message id and data, and the registry is as
      before; the QoS is the same exactly when it is 0 or 1. */
  lemma LoopbackKeepsMeaning(n: Node, m: SnMessage, rest: seq<byte>, env: Env, name: Str)
    requires InOrder(n.topics) && m.SnPublish? && NameOfId(n.topics, m.topicId) == Some(name) && |name| != 2
    requires |m.data| <= 248 && |name| + |m.data| < 65528
    ensures
      var r := RoundTrip(n, m, rest, env);
      && r.Some? && r.value.st.topics == n.topics
      && exists flags: byte ::
        && r.value.outs == [ToClient(ForClient(SnPublish(flags, m.topicId, m.msgId, m.data)))]
        && (SnQos(flags) == SnQos(m.flags) <==> SnQos(m.flags) <= 1)
  {
    RoundTripIs(n, m, rest, env, name);
    LookupsInverse(n.topics, name, m.topicId);
    var p := Publish(UpstreamFlags(m.flags), name, m.msgId, m.data);
    FlagsBack(m.flags, p);
    var st := HandleSnPublish(n, m).st;
    assert st.topics == n.topics;
    KnownPublish(st, p, env, m.topicId);
  }

  lemma KnownPublish(n: Node, p: Publish, env: Env, topicId: uint16)
    requires |p.topic| != 2 && GetTopicId(n.topics, p.topic) == topicId != 0 && |p.payload| <= 248
    ensures HandlePublish(n, p, env) ==
      Reply(n, [ToClient(ForClient(SnPublish(DownstreamFlags(p), topicId, p.messageId, p.payload)))])
  {
  }

  lemma FlagsBack(flags: byte, p: Publish)
    requires p.flags == UpstreamFlags(flags)
    ensures SnQos(DownstreamFlags(p)) == SnQos(flags) <==> SnQos(flags) <= 1
  {
  }

  // ---------- The MQTT-SN bytes ----------

  /** The calls handlePublish makes on its message, last ones first in this list of parts. */
  function DupCalls(p: Publish): seq<SnPublish.Op> {
    if HasBit(p.flags, 128) && HasBit(p.flags, 1) then [SnPublish.SetDup] + [SnPublish.SetDup]
    else if HasBit(p.flags, 128) || HasBit(p.flags, 1) then [SnPublish.SetDup]
    else []
  }

  function Calls(
    flags: byte, topicId: uint16, msgId: uint16, data: seq<byte>, qos: byte, more: seq<SnPublish.Op>): seq<SnPublish.Op>
  {
    [SnPublish.SetFlags(flags)] + ([SnPublish.SetTopicId(topicId)] + ([SnPublish.SetMsgId(msgId)]
    + ([SnPublish.SetData(data)] + ([SnPublish.SetQos(qos)] + more))))
  }

  function DownstreamCalls(p: Publish, topicId: uint16): seq<SnPublish.Op> {
    Calls(TypeBits(p), topicId, p.messageId, p.payload, (p.flags / 2) % 4, DupCalls(p))
  }

  lemma EffectsCons(c: SnPublish.Content, op: SnPublish.Op, more: seq<SnPublish.Op>)
    requires |c.data| <= 248 && SnPublish.Callable(op) && !op.AbsorbResponse?
    requires SnPublish.AllCallable(more) && SnPublish.NoResponse(more)
    ensures SnPublish.AllCallable([op] + more) && SnPublish.NoResponse([op] + more)
    ensures SnPublish.Effects(c, [op] + more) == SnPublish.Effects(SnPublish.Effect(c, op), more)
  {
    assert ([op] + more)[1..] == more;
  }

  lemma DupEffects(p: Publish, c: SnPublish.Content)
    requires |c.data| <= 248 && c.flags in {0, 2, 0x20, 0x22}
    ensures AmountsTo(DupCalls(p), c, c.(flags := c.flags + DupBits(p)))
  {
    var dup := c.(flags := c.flags + 0x80);
    assert SetBit(c.flags, 128) == dup.flags == SetBit(dup.flags, 128) == Mask0xf3(dup.flags);
    if HasBit(p.flags, 128) || HasBit(p.flags, 1) {
      assert SnPublish.Effect(c, SnPublish.SetDup) == dup == SnPublish.Effect(dup, SnPublish.SetDup);
      EffectsCons(dup, SnPublish.SetDup, []);
      EffectsCons(c, SnPublish.SetDup, []);
      EffectsCons(c, SnPublish.SetDup, [SnPublish.SetDup]);
      assert [SnPublish.SetDup] + [] == [SnPublish.SetDup];
    }
  }

  lemma TwoEffects(
    c: SnPublish.Content, d: SnPublish.Content, e: SnPublish.Content,
    o: SnPublish.Op, q: SnPublish.Op, more: seq<SnPublish.Op>)
    requires |c.data| <= 248 && SnPublish.Callable(o) && !o.AbsorbResponse? && SnPublish.Callable(q) && !q.AbsorbResponse?
    requires SnPublish.Effect(c, o) == d && SnPublish.Effect(d, q) == e
    requires SnPublish.AllCallable(more) && SnPublish.NoResponse(more)
    ensures SnPublish.AllCallable([o] + ([q] + more)) && SnPublish.NoResponse([o] + ([q] + more))
    ensures SnPublish.Effects(c, [o] + ([q] + more)) == SnPublish.Effects(e, more)
  {
    EffectsCons(d, q, more);
    EffectsCons(c, o, [q] + more);
  }

  lemma MaskKeeps(b: byte)
    requires b % 16 < 4
    ensures Mask0xf3(b) == b
  {
  }

  lemma ClearKeeps(t: byte)
    requires t < 4
    ensures ClearSnQos(t) == t
  {
  }

  lemma QosOnto(t: byte, qos: byte, u: byte)
    requires t < 4 && u == t + (if qos == 1 then 0x20 else 0)
    ensures SnPublish.QosFlags(t, qos) == u && Mask0xf3(u) == u
  {
    ClearKeeps(t);
    MaskKeeps(u);
  }

  ghost predicate AmountsTo(calls: seq<SnPublish.Op>, from: SnPublish.Content, to: SnPublish.Content) {
    && |from.data| <= 248 && SnPublish.AllCallable(calls) && SnPublish.NoResponse(calls)
    && SnPublish.Effects(from, calls) == to
  }

  lemma CallsChain(c: SnPublish.Content, t: byte, topicId: uint16, msgId: uint16, payload: seq<byte>, qos: byte, f: byte,
      more: seq<SnPublish.Op>, end: SnPublish.Content)
    requires |payload| <= 248 && c.data == []
    requires Mask0xf3(t) == t && Mask0xf3(SnPublish.QosFlags(t, qos)) == f
    requires AmountsTo(more, SnPublish.Content(c.msgType, f, topicId, msgId, payload), end)
    ensures AmountsTo(Calls(t, topicId, msgId, payload, qos, more), c, end)
  {
    var c2 := SnPublish.Content(c.msgType, t, topicId, c.msgId, []);
    var c4 := SnPublish.Content(c.msgType, t, topicId, msgId, payload);
    var s4 := [SnPublish.SetQos(qos)] + more;
    EffectsCons(c4, SnPublish.SetQos(qos), more);
    var s2 := [SnPublish.SetMsgId(msgId)] + ([SnPublish.SetData(payload)] + s4);
    TwoEffects(c2, c2.(msgId := msgId), c4, SnPublish.SetMsgId(msgId), SnPublish.SetData(payload), s4);
    TwoEffects(c, c.(flags := t), c2, SnPublish.SetFlags(t), SnPublish.SetTopicId(topicId), s2);
  }

  lemma FlagsBeforeDup(p: Publish) returns (f: byte)
    ensures f == TypeBits(p) + QosBits(p) && f in {0, 2, 0x20, 0x22}
  {
    f := TypeBits(p) + QosBits(p);
  }

  lemma CallsBeforeDup(p: Publish, topicId: uint16, c: SnPublish.Content, f: byte, end: SnPublish.Content)
    requires |p.payload| <= 248 && c.data == [] && f == TypeBits(p) + QosBits(p)
    requires AmountsTo(DupCalls(p), SnPublish.Content(c.msgType, f, topicId, p.messageId, p.payload), end)
    ensures AmountsTo(DownstreamCalls(p, topicId), c, end)
  {
    MaskKeeps(TypeBits(p));
    QosOnto(TypeBits(p), (p.flags / 2) % 4, f);
    CallsChain(c, TypeBits(p), topicId, p.messageId, p.payload, (p.flags / 2) % 4, f, DupCalls(p), end);
  }

  /** The calls amount to what the handler's reply says. */
  lemma EffectOfCalls(p: Publish, topicId: uint16, c: SnPublish.Content)
    requires |p.payload| <= 248 && c.data == []
    ensures AmountsTo(DownstreamCalls(p, topicId), c,
      SnPublish.Content(c.msgType, DownstreamFlags(p), topicId, p.messageId, p.payload))
  {
    var f := FlagsBeforeDup(p);
    var before := SnPublish.Content(c.msgType, f, topicId, p.messageId, p.payload);
    DupEffects(p, before);
    CallsBeforeDup(p, topicId, c, f, before.(flags := f + DupBits(p)));
  }

  // ---------- The time ----------

  const Empty := SnPublish.Content(SnPublish.TYPE_SN_PUBLISH, 0, 0, 0, [])

  /** The calls of handleSnSubscribe for the time topic. */
  function TimeReplyCalls(msgId: uint16, time: seq<byte>): seq<SnPublish.Op> {
    [SnPublish.SetTopicIdType(1)] + ([SnPublish.SetTopicId(1)]
    + ([SnPublish.SetMsgId(msgId)] + ([SnPublish.SetData(time)] + [])))
  }

  /** Those of the announcement that run makes. */
  function TimeCalls(time: seq<byte>): seq<SnPublish.Op> {
    [SnPublish.SetTopicId(1)] + ([SnPublish.SetTopicIdType(1)]
    + ([SnPublish.SetData(time)] + ([SnPublish.SetQos(0)] + [])))
  }

  lemma PredefinedFlags(c: SnPublish.Content) returns (f: byte)
    requires c == Empty
    ensures f == 1 && Mask0xf3(f) == f
    ensures Mask0xf3(SnPublish.TypeFlags(c.flags, 1)) == f && Mask0xf3(SnPublish.QosFlags(f, 0)) == f
  {
    f := 1;
  }

  lemma ReplyChain(c: SnPublish.Content, f: byte, msgId: uint16, time: seq<byte>)
    requires |time| <= 248 && c.data == [] && Mask0xf3(f) == f && Mask0xf3(SnPublish.TypeFlags(c.flags, 1)) == f
    ensures AmountsTo(TimeReplyCalls(msgId, time), c, SnPublish.Content(c.msgType, f, 1, msgId, time))
  {
    var typed, both := c.(flags := f), c.(flags := f, topicId := 1);
    var reply := both.(msgId := msgId);
    EffectsCons(reply, SnPublish.SetData(time), []);
    EffectsCons(both, SnPublish.SetMsgId(msgId), [SnPublish.SetData(time)] + []);
    TwoEffects(c, typed, both, SnPublish.SetTopicIdType(1), SnPublish.SetTopicId(1),
      [SnPublish.SetMsgId(msgId)] + ([SnPublish.SetData(time)] + []));
  }

  lemma AnnouncementChain(c: SnPublish.Content, f: byte, time: seq<byte>)
    requires |time| <= 248 && c.data == [] && Mask0xf3(f) == f
    requires Mask0xf3(SnPublish.TypeFlags(c.flags, 1)) == f && Mask0xf3(SnPublish.QosFlags(f, 0)) == f
    ensures AmountsTo(TimeCalls(time), c, SnPublish.Content(c.msgType, f, 1, c.msgId, time))
  {
    var named, both := c.(topicId := 1), c.(flags := f, topicId := 1);
    var full := both.(data := time);
    TwoEffects(both, full, full, SnPublish.SetData(time), SnPublish.SetQos(0), []);
    TwoEffects(c, named, both, SnPublish.SetTopicId(1), SnPublish.SetTopicIdType(1),
      [SnPublish.SetData(time)] + ([SnPublish.SetQos(0)] + []));
  }

  /** Both amount to a PUBLISH of predefined type, id 1, with the time as data; the announcement
      with message id 0. */
  lemma TimeMessages(msgId: uint16, time: seq<byte>)
    requires |time| <= 248
    ensures AmountsTo(TimeReplyCalls(msgId, time), Empty, SnPublish.Content(0x0c, 1, 1, msgId, time))
    ensures AmountsTo(TimeCalls(time), Empty, SnPublish.Content(0x0c, 1, 1, 0, time))
  {
    var c := Empty;
    var f := PredefinedFlags(c);
    ReplyChain(c, f, msgId, time);
    AnnouncementChain(c, f, time);
  }

  lemma TimeBytes(c: SnPublish.Content)
    requires |c.data| <= 248 && c.msgType == 0x0c && c.flags == c.topicId == 1
    ensures SnPublish.Encoding(c) == [7 + |c.data|, 0x0c, 1, 0, 1] + PutUint16(c.msgId) + c.data
  {
  }

  /** And so their bytes are. */
  lemma TimeOnTheWire(msgId: uint16, time: seq<byte>)
    requires |time| <= 248
    ensures SnPublish.AllCallable(TimeReplyCalls(msgId, time)) && SnPublish.AllCallable(TimeCalls(time))
    ensures SnPublish.Run(SnPublish.New(), TimeReplyCalls(msgId, time)).bytes ==
      [7 + |time|, 0x0c, 1, 0, 1] + PutUint16(msgId) + time
    ensures SnPublish.Run(SnPublish.New(), TimeCalls(time)).bytes == [7 + |time|, 0x0c, 1, 0, 1] + PutUint16(0) + time
  {
    TimeMessages(msgId, time);
    SnPublish.NewHolds();
    SnPublish.FieldsAgreeWithWire(SnPublish.New(), Empty, TimeReplyCalls(msgId, time));
    SnPublish.FieldsAgreeWithWire(SnPublish.New(), Empty, TimeCalls(time));
    TimeBytes(SnPublish.Content(0x0c, 1, 1, msgId, time));
    TimeBytes(SnPublish.Content(0x0c, 1, 1, 0, time));
  }

  // ---------- From bytes to bytes ----------

  /** A received PUBLISH: the payload is absorbed and the fields are read from it. */
  function Received(bytes: seq<byte>): SnMessage
    requires 7 <= |bytes| <= 255
  {
    var m := SnPublish.Apply(SnPublish.New(), SnPublish.Absorb(bytes));
    Gateway.SnPublish(m.flags, m.topicId, m.msgId, m.bytes[7..])
  }

  /** From the client's bytes to the client's bytes: whatever PUBLISH the client sends on a
      registered id, the message built for the loop's other end is the same packet but for the
      flags, and its QoS is the client's exactly for 0 and 1. It leaves the radio, whole, exactly if
      it has at most 235 bytes of data. */
  lemma LoopbackOnTheWire(n: Node, c: SnPublish.Content, rest: seq<byte>, env: Env, name: Str, a: Radio.Address)
    requires InOrder(n.topics) && NameOfId(n.topics, c.topicId) == Some(name) && |name| != 2
    requires |c.data| <= 248 && |name| + |c.data| < 65528 && c.msgType == SnPublish.TYPE_SN_PUBLISH
    ensures
      var m := Received(SnPublish.Encoding(c));
      var p := Publish(UpstreamFlags(c.flags), name, c.msgId, c.data);
      var calls := DownstreamCalls(p, c.topicId);
      && m == Gateway.SnPublish(c.flags, c.topicId, c.msgId, c.data)
      && RoundTrip(n, m, rest, env) == Some(HandlePublish(HandleSnPublish(n, m).st, p, env))
      && SnPublish.AllCallable(calls)
      && SnPublish.Run(SnPublish.New(), calls).bytes == SnPublish.Encoding(c.(flags := DownstreamFlags(p)))
      && (SnQos(DownstreamFlags(p)) == SnQos(c.flags) <==> SnQos(c.flags) <= 1)
      && var bytes := SnPublish.Run(SnPublish.New(), calls).bytes;
         Radio.AirData(XBeeFraming.RequestFrame(Radio.Unicast(a, bytes)).data) == (if |c.data| <= 235 then bytes else [])
  {
    var m := Received(SnPublish.Encoding(c));
    SnPublish.AbsorbStep(SnPublish.New(), SnPublish.Encoding(c));
    SnPublish.DecodingOfEncoding(c);
    assert SnPublish.Encoding(c)[7..] == c.data;
    RoundTripIs(n, m, rest, env, name);
    var p := Publish(UpstreamFlags(c.flags), name, c.msgId, c.data);
    FlagsBack(c.flags, p);
    var empty := SnPublish.Content(SnPublish.TYPE_SN_PUBLISH, 0, 0, 0, []);
    EffectOfCalls(p, c.topicId, empty);
    SnPublish.NewHolds();
    SnPublish.FieldsAgreeWithWire(SnPublish.New(), empty, DownstreamCalls(p, c.topicId));
    Radio.AllOrNothing(a, SnPublish.Encoding(c.(flags := DownstreamFlags(p))));
  }
}
