/** MQTTSnPublish: a message that holds its fields twice, in members and in its bytes. */
module SnPublish {
  import opened Bytes
  import opened SnFlags

  const TYPE_SN_PUBLISH: byte := 0x0C
  const QOS_1 := 0x20

  // ---------- The members and the bytes ----------

  /** `bytes` is what _message points to; its length is _length. */
  datatype Message = Message(bytes: seq<byte>, msgType: byte, flags: byte, topicId: uint16, msgId: uint16)

  /** One call. Absorb takes another message, AbsorbResponse a received XBee payload. */
  datatype Op =
    | SetFlags(flags: byte)
    | SetQos(qos: byte)
    | SetDup
    | SetRetain
    | SetTopicIdType(idType: byte)
    | SetTopicId(id: uint16)
    | SetTopic(topic: Str)
    | SetMsgId(id: uint16)
    | SetData(data: seq<byte>)
    | SetFrame(body: seq<byte>)
    | Absorb(src: seq<byte>)
    | AbsorbResponse(payload: seq<byte>)

  /** What each call needs: room for its bytes in a length of 8 bits, and the fields it reads. */
  predicate Callable(op: Op) {
    match op
    case SetData(data) => |data| <= 248
    case SetFrame(body) => 5 <= |body| <= 253
    case Absorb(src) => 7 <= |src| <= 255
    case AbsorbResponse(payload) => 7 <= |payload| <= 255
    case _ => true
  }

  predicate Valid(m: Message) {
    7 <= |m.bytes| <= 255
  }

  function New(): Message {
    Message([7, TYPE_SN_PUBLISH, 0, 0, 0, 0, 0], TYPE_SN_PUBLISH, 0, 0, 0)
  }

  function WithFlags(m: Message, flags: byte): Message
    requires Valid(m)
  {
    m.(flags := Mask0xf3(flags), bytes := m.bytes[2 := Mask0xf3(flags)])
  }

  function WithTopicId(m: Message, id: uint16): Message
    requires Valid(m)
  {
    m.(topicId := id, bytes := m.bytes[3 := id / 256][4 := id % 256])
  }

  function WithMsgId(m: Message, id: uint16): Message
    requires Valid(m)
  {
    m.(msgId := id, bytes := m.bytes[5 := id / 256][6 := id % 256])
  }

  function QosFlags(flags: byte, qos: byte): byte {
    ClearSnQos(flags) + if qos == 1 then QOS_1 else 0
  }

  /** Type 1 sets bit 0 after clearing the QoS bits, not the type bits; type 2 changes nothing. */
  function TypeFlags(flags: byte, idType: byte): byte {
    if idType == 0 then ClearSnQos(flags)
    else if idType == 1 then SetBit(ClearSnQos(flags), 1)
    else flags
  }

  /** At most two characters are copied over the topic id, which is then read again. */
  function WithTopic(m: Message, topic: Str): Message
    requires Valid(m)
  {
    var b := if |topic| > 0 then m.bytes[3 := topic[0]] else m.bytes;
    var c := if |topic| > 1 then b[4 := topic[1]] else b;
    m.(bytes := c, topicId := GetUint16(c[3], c[4]))
  }

  /** allocate: zeros, with length and type in front. */
  function Allocated(n: nat, msgType: byte): seq<byte>
    requires 2 <= n <= 255
  {
    [n, msgType] + seq(n - 2, _ => 0)
  }

  function Apply(m: Message, op: Op): (r: Message)
    requires Valid(m) && Callable(op)
    ensures Valid(r)
  {
    match op
    case SetFlags(f) => WithFlags(m, f)
    case SetQos(qos) => WithFlags(m, QosFlags(m.flags, qos))
    case SetDup => WithFlags(m, SetBit(m.flags, 128))
    case SetRetain => WithFlags(m, SetBit(m.flags, 16))
    case SetTopicIdType(t) => WithFlags(m, TypeFlags(m.flags, t))
    case SetTopicId(id) => WithTopicId(m, id)
    case SetTopic(topic) => WithTopic(m, topic)
    case SetMsgId(id) => WithMsgId(m, id)
    case SetData(data) =>
      var n := m.(bytes := Overwrite(Allocated(7 + |data|, m.msgType), 7, data));
      WithFlags(WithMsgId(WithTopicId(n, m.topicId), m.msgId), m.flags)
    case SetFrame(body) =>
      Message(Overwrite(Allocated(2 + |body|, m.msgType), 2, body), m.msgType, body[0],
        GetUint16(body[1], body[2]), GetUint16(body[3], body[4]))
    case Absorb(src) =>
      Message(Overwrite(Allocated(|src|, src[1]), 2, src[2..]), src[1], src[2],
        GetUint16(src[3], src[4]), GetUint16(src[5], src[6]))
    case AbsorbResponse(payload) =>
      m.(bytes := payload, msgType := payload[1])
  }

  predicate AllCallable(ops: seq<Op>) {
    forall i | 0 <= i < |ops| :: Callable(ops[i])
  }

  function Run(m: Message, ops: seq<Op>): (r: Message)
    requires Valid(m) && AllCallable(ops)
    ensures Valid(r)
    decreases |ops|
  {
    if ops == [] then m else Run(Apply(m, ops[0]), ops[1..])
  }

  // ---------- What they mean ----------

  /** A PUBLISH of section 5.4.12 of MQTT-SN v1.2. */
  datatype Content = Content(msgType: byte, flags: byte, topicId: uint16, msgId: uint16, data: seq<byte>)

  function Encoding(c: Content): seq<byte>
    requires |c.data| <= 248
  {
    [7 + |c.data|, c.msgType, c.flags] + PutUint16(c.topicId) + PutUint16(c.msgId) + c.data
  }

  function Decoding(bytes: seq<byte>): Content
    requires |bytes| >= 7
  {
    Content(bytes[1], bytes[2], GetUint16(bytes[3], bytes[4]), GetUint16(bytes[5], bytes[6]), bytes[7..])
  }

  /** What a call does to the content, fields apart from bytes. */
  function Effect(c: Content, op: Op): (r: Content)
    requires |c.data| <= 248 && Callable(op) && !op.AbsorbResponse?
    ensures |r.data| <= 248
  {
    match op
    case SetFlags(f) => c.(flags := Mask0xf3(f))
    case SetQos(qos) => c.(flags := Mask0xf3(QosFlags(c.flags, qos)))
    case SetDup => c.(flags := Mask0xf3(SetBit(c.flags, 128)))
    case SetRetain => c.(flags := Mask0xf3(SetBit(c.flags, 16)))
    case SetTopicIdType(t) => c.(flags := Mask0xf3(TypeFlags(c.flags, t)))
    case SetTopicId(id) => c.(topicId := id)
    case SetTopic(topic) =>
      if topic == [] then c
      else if |topic| == 1 then c.(topicId := GetUint16(topic[0], c.topicId % 256))
      else c.(topicId := GetUint16(topic[0], topic[1]))
    case SetMsgId(id) => c.(msgId := id)
    case SetData(data) => c.(data := data, flags := Mask0xf3(c.flags))
    case SetFrame(body) =>
      Content(c.msgType, body[0], GetUint16(body[1], body[2]), GetUint16(body[3], body[4]), body[5..])
    case Absorb(src) => Decoding(src)
  }

  function Effects(c: Content, ops: seq<Op>): (r: Content)
    requires |c.data| <= 248 && AllCallable(ops) && NoResponse(ops)
    ensures |r.data| <= 248
    decreases |ops|
  {
    if ops == [] then c else Effects(Effect(c, ops[0]), ops[1..])
  }

  predicate NoResponse(ops: seq<Op>) {
    forall i | 0 <= i < |ops| :: !ops[i].AbsorbResponse?
  }

  /** Members and bytes agree, and hold this content. */
  ghost predicate Holds(m: Message, c: Content) {
    && |c.data| <= 248
    && m == Message(Encoding(c), c.msgType, c.flags, c.topicId, c.msgId)
  }

  // ---------- Fields agree with the wire ----------

  lemma NewHolds()
    ensures Holds(New(), Content(TYPE_SN_PUBLISH, 0, 0, 0, []))
  {
  }

  lemma EncodingBytes(c: Content, k: int)
    requires |c.data| <= 248 && 0 <= k < 7 + |c.data|
    ensures Encoding(c)[k] ==
      if k == 0 then 7 + |c.data| else if k == 1 then c.msgType else if k == 2 then c.flags
      else if k == 3 then c.topicId / 256 else if k == 4 then c.topicId % 256
      else if k == 5 then c.msgId / 256 else if k == 6 then c.msgId % 256 else c.data[k - 7]
  {
  }

  lemma FlagsStep(c: Content, f: byte)
    requires |c.data| <= 248
    ensures Encoding(c)[2 := f] == Encoding(c.(flags := f))
  {
  }

  lemma TopicIdStep(c: Content, id: uint16)
    requires |c.data| <= 248
    ensures Encoding(c)[3 := id / 256][4 := id % 256] == Encoding(c.(topicId := id))
  {
  }

  lemma MsgIdStep(c: Content, id: uint16)
    requires |c.data| <= 248
    ensures Encoding(c)[5 := id / 256][6 := id % 256] == Encoding(c.(msgId := id))
  {
  }

  lemma HalvesOf(hi: byte, lo: byte)
    ensures GetUint16(hi, lo) / 256 == hi && GetUint16(hi, lo) % 256 == lo
  {
  }

  lemma TopicStep(m: Message, c: Content, topic: Str)
    requires Holds(m, c)
    ensures Holds(Apply(m, SetTopic(topic)), Effect(c, SetTopic(topic)))
  {
    var hi: byte := if topic == [] then c.topicId / 256 else topic[0];
    var lo: byte := if |topic| <= 1 then c.topicId % 256 else topic[1];
    assert GetUint16(c.topicId / 256, c.topicId % 256) == c.topicId;
    HalvesOf(hi, lo);
    TopicBytes(c, topic, hi, lo);
    TopicIdStep(c, GetUint16(hi, lo));
  }

  lemma TopicBytes(c: Content, topic: Str, hi: byte, lo: byte)
    requires |c.data| <= 248
    requires hi == if topic == [] then c.topicId / 256 else topic[0]
    requires lo == if |topic| <= 1 then c.topicId % 256 else topic[1]
    ensures
      var b := if |topic| > 0 then Encoding(c)[3 := topic[0]] else Encoding(c);
      (if |topic| > 1 then b[4 := topic[1]] else b) == Encoding(c)[3 := hi][4 := lo]
  {
    EncodingBytes(c, 3);
    EncodingBytes(c, 4);
  }

  lemma DataStep(m: Message, c: Content, data: seq<byte>)
    requires Holds(m, c) && |data| <= 248
    ensures Holds(Apply(m, SetData(data)), Effect(c, SetData(data)))
  {
    var c0 := Content(c.msgType, 0, 0, 0, data);
    assert Overwrite(Allocated(7 + |data|, m.msgType), 7, data) == Encoding(c0);
    TopicIdStep(c0, c.topicId);
    MsgIdStep(c0.(topicId := c.topicId), c.msgId);
    FlagsStep(c.(flags := 0, data := data), Mask0xf3(c.flags));
  }

  /** Any 7 bytes and more are the encoding of what they decode to, once the length is right. */
  lemma EncodingOfDecoding(bytes: seq<byte>)
    requires 7 <= |bytes| <= 255
    ensures Encoding(Decoding(bytes)) == bytes[0 := |bytes|]
  {
    var c := Decoding(bytes);
    forall k | 0 <= k < |bytes| ensures Encoding(c)[k] == bytes[0 := |bytes|][k] {
      EncodingBytes(c, k);
    }
  }

  lemma FrameStep(m: Message, c: Content, body: seq<byte>)
    requires Holds(m, c) && 5 <= |body| <= 253
    ensures Holds(Apply(m, SetFrame(body)), Effect(c, SetFrame(body)))
  {
    var bytes := [2 + |body|, c.msgType] + body;
    assert Overwrite(Allocated(2 + |body|, m.msgType), 2, body) == bytes;
    EncodingOfDecoding(bytes);
    assert bytes[7..] == body[5..];
  }

  lemma AbsorbStep(m: Message, src: seq<byte>)
    requires 7 <= |src| <= 255 && Valid(m)
    ensures Holds(Apply(m, Absorb(src)), Decoding(src))
  {
    assert Overwrite(Allocated(|src|, src[1]), 2, src[2..]) == src[0 := |src|];
    EncodingOfDecoding(src);
  }

  lemma StepHolds(m: Message, c: Content, op: Op)
    requires Holds(m, c) && Callable(op) && !op.AbsorbResponse?
    ensures Holds(Apply(m, op), Effect(c, op))
  {
    match op {
      case SetFlags(f) => FlagsStep(c, Mask0xf3(f));
      case SetQos(qos) => FlagsStep(c, Mask0xf3(QosFlags(c.flags, qos)));
      case SetDup => FlagsStep(c, Mask0xf3(SetBit(c.flags, 128)));
      case SetRetain => FlagsStep(c, Mask0xf3(SetBit(c.flags, 16)));
      case SetTopicIdType(t) => FlagsStep(c, Mask0xf3(TypeFlags(c.flags, t)));
      case SetTopicId(id) => TopicIdStep(c, id);
      case SetTopic(topic) => TopicStep(m, c, topic);
      case SetMsgId(id) => MsgIdStep(c, id);
      case SetData(data) => DataStep(m, c, data);
      case SetFrame(body) => FrameStep(m, c, body);
      case Absorb(src) => AbsorbStep(m, src);
    }
  }

  /** After any sequence of the setters, setData, setFrame and absorb(MQTTSnMessage), in any
      order, the members hold the content those calls amount to, and the bytes are its encoding. */
  lemma {:induction false} FieldsAgreeWithWire(m: Message, c: Content, ops: seq<Op>)
    requires Holds(m, c) && AllCallable(ops) && NoResponse(ops)
    ensures Holds(Run(m, ops), Effects(c, ops))
    decreases |ops|
  {
    if ops != [] {
      StepHolds(m, c, ops[0]);
      FieldsAgreeWithWire(Apply(m, ops[0]), Effect(c, ops[0]), ops[1..]);
    }
  }

  /** absorb(XBResponse) leaves the members alone: afterwards they and the bytes are those of one
      content exactly when the payload counts its own bytes, and has the flags and the two ids that
      the message had before. */
  lemma ResponseAgreesIff(m: Message, payload: seq<byte>)
    requires Valid(m) && Callable(AbsorbResponse(payload))
    ensures (exists c :: Holds(Apply(m, AbsorbResponse(payload)), c))
      <==> (payload[0] == |payload| && payload[2] == m.flags
            && GetUint16(payload[3], payload[4]) == m.topicId && GetUint16(payload[5], payload[6]) == m.msgId)
  {
    var r := Apply(m, AbsorbResponse(payload));
    if c :| Holds(r, c) {
      DecodingOfEncoding(c);
      assert payload[0] == 7 + |c.data|;
    }
    if payload[0] == |payload| {
      EncodingOfDecoding(payload);
      assert payload[0 := |payload|] == payload;
      var same := r.flags == payload[2] && r.topicId == GetUint16(payload[3], payload[4])
                  && r.msgId == GetUint16(payload[5], payload[6]);
      assert same ==> Holds(r, Decoding(payload));
    }
  }

  /** The receiving task absorbs into a new message: its members are those of the payload only for
      flags and ids of 0. The handler then absorbs that message into another one, which reads the
      members from the bytes, so what it works on is the payload's content, always. */
  lemma ReceivedThenAbsorbed(payload: seq<byte>)
    requires Callable(AbsorbResponse(payload))
    ensures
      var received := Apply(New(), AbsorbResponse(payload));
      && ((exists c :: Holds(received, c)) <==> payload[0] == |payload| && forall i | 2 <= i < 7 :: payload[i] == 0)
      && Holds(Apply(New(), Absorb(received.bytes)), Decoding(payload))
  {
    ResponseAgreesIff(New(), payload);
    AbsorbStep(New(), payload);
  }

  /** What one message was given, another that absorbs its bytes has. */
  lemma AbsorbedIsSent(ops: seq<Op>, receiver: Message)
    requires AllCallable(ops) && NoResponse(ops) && Valid(receiver)
    ensures Apply(receiver, Absorb(Run(New(), ops).bytes)) == Run(New(), ops)
  {
    var c := Content(TYPE_SN_PUBLISH, 0, 0, 0, []);
    NewHolds();
    FieldsAgreeWithWire(New(), c, ops);
    var e, sent := Effects(c, ops), Run(New(), ops);
    AbsorbStep(receiver, sent.bytes);
    DecodingOfEncoding(e);
  }

  lemma DecodingOfEncoding(c: Content)
    requires |c.data| <= 248
    ensures Decoding(Encoding(c)) == c
  {
  }

  // ---------- What the setters say ----------

  /** The content is as before, but for the flags: they say this, and Will and clean are off. */
  predicate OnlyFlags(c: Content, r: Content, f: Flags) {
    r == c.(flags := r.flags) && FlagsIn(r.flags) == f && !HasBit(r.flags, 8) && !HasBit(r.flags, 4)
  }

  lemma QosSays(b: byte, qos: byte)
    ensures FlagsIn(QosFlags(b, qos)) == FlagsIn(b).(qos := if qos == 1 then 1 else 0)
  {
    var d, q, r, w, c, t := SplitFlags(b);
    ReadFlags(b, d, q, r, w, c, t);
    ReadMasked(b, d, q, r, w, c, t);
    ReadFlags(QosFlags(b, qos), d, if qos == 1 then 1 else 0, r, w, c, t);
  }

  lemma TypeSays(b: byte, idType: byte)
    ensures
      var f := FlagsIn(b);
      FlagsIn(TypeFlags(b, idType)) ==
        if idType == 0 then f.(qos := 0)
        else if idType == 1 then f.(qos := 0, idType := Odd(f.idType))
        else f
  {
    QosSays(b, 0);
    LowBitSays(b, ClearSnQos(b), SetBit(ClearSnQos(b), 1));
  }

  /** setDup, setRetain and setQos do what their names say, any QoS but 1 becoming 0. But
      setTopicIdType(0) and (1) set the QoS to 0, and of the type only the low bit for 1. */
  lemma FlagCallsSay(c: Content, b: byte)
    requires |c.data| <= 248
    ensures OnlyFlags(c, Effect(c, SetFlags(b)), FlagsIn(b))
    ensures OnlyFlags(c, Effect(c, SetDup), FlagsIn(c.flags).(dup := true))
    ensures OnlyFlags(c, Effect(c, SetRetain), FlagsIn(c.flags).(retain := true))
    ensures OnlyFlags(c, Effect(c, SetQos(b)), FlagsIn(c.flags).(qos := if b == 1 then 1 else 0))
    ensures
      var f := FlagsIn(c.flags);
      OnlyFlags(c, Effect(c, SetTopicIdType(b)),
        if b == 0 then f.(qos := 0)
        else if b == 1 then f.(qos := 0, idType := Odd(f.idType))
        else f)
  {
    MaskSays(b);
    MaskSays(SetBit(c.flags, 128));
    MaskSays(SetBit(c.flags, 16));
    MaskSays(QosFlags(c.flags, b));
    MaskSays(TypeFlags(c.flags, b));
    QosSays(c.flags, b);
    SetBitSays(c.flags);
    TypeSays(c.flags, b);
  }

  /** So the type is the one asked for exactly if it was already, or 1 was asked for and it was 0;
      and the QoS is kept exactly if it was 0, or a type of 2 or more was asked for. */
  lemma TypeIsSetIff(c: Content, t: byte)
    requires |c.data| <= 248 && t < 4
    ensures
      var f, g := FlagsIn(c.flags), FlagsIn(Effect(c, SetTopicIdType(t)).flags);
      && (g.idType == t <==> f.idType == t || (t == 1 && f.idType == 0))
      && (g.qos == f.qos <==> f.qos == 0 || t >= 2)
  {
    FlagCallsSay(c, t);
  }

  /** setTopic: the characters there are, up to two, and then what was there. */
  lemma TopicSays(c: Content, topic: Str)
    requires |c.data| <= 248
    ensures
      var r := Effect(c, SetTopic(topic));
      && r == c.(topicId := r.topicId)
      && PutUint16(r.topicId) == if |topic| >= 2 then topic[..2] else topic + PutUint16(c.topicId)[|topic|..]
  {
  }

  // ---------- The class ----------

  class MQTTSnPublish {
    var message: array<byte>
    var msgType: byte
    var flags: byte
    var topicId: uint16
    var msgId: uint16

    ghost predicate Ok()
      reads this, message
    {
      7 <= message.Length <= 255
    }

    ghost function State(): Message
      reads this, message
    {
      Message(message[..], msgType, flags, topicId, msgId)
    }

    constructor ()
      ensures Ok() && fresh(message) && State() == New()
    {
      message := new byte[7](i => if i == 0 then 7 else if i == 1 then TYPE_SN_PUBLISH else 0);
      msgType, flags, topicId, msgId := TYPE_SN_PUBLISH, 0, 0, 0;
      new;
      assert message[..] == New().bytes;
    }

    method PutFlags(f: byte)
      requires Ok()
      modifies this`flags, message
      ensures Ok() && State() == Apply(old(State()), SetFlags(f))
    {
      flags := Mask0xf3(f);
      message[2] := flags;
    }

    method PutQos(qos: byte)
      requires Ok()
      modifies this`flags, message
      ensures Ok() && State() == Apply(old(State()), SetQos(qos))
    {
      flags := ClearSnQos(flags);
      if qos == 1 {
        flags := flags + QOS_1;
      }
      PutFlags(flags);
    }

    method PutDup()
      requires Ok()
      modifies this`flags, message
      ensures Ok() && State() == Apply(old(State()), SetDup)
    {
      flags := SetBit(flags, 128);
      PutFlags(flags);
    }

    method PutRetain()
      requires Ok()
      modifies this`flags, message
      ensures Ok() && State() == Apply(old(State()), SetRetain)
    {
      flags := SetBit(flags, 16);
      PutFlags(flags);
    }

    method PutTopicIdType(idType: byte)
      requires Ok()
      modifies this`flags, message
      ensures Ok() && State() == Apply(old(State()), SetTopicIdType(idType))
    {
      if idType == 0 {
        flags := ClearSnQos(flags);
      } else if idType == 1 {
        flags := ClearSnQos(flags);
        flags := SetBit(flags, 1);
      }
      PutFlags(flags);
    }

    method PutTopicId(id: uint16)
      requires Ok()
      modifies this`topicId, message
      ensures Ok() && State() == Apply(old(State()), SetTopicId(id))
    {
      message[3] := id / 256;
      message[4] := id % 256;
      topicId := id;
    }

    method PutTopic(topic: Str)
      requires Ok()
      modifies this`topicId, message
      ensures Ok() && State() == Apply(old(State()), SetTopic(topic))
    {
      var i := 0;
      while i < 2 && i < |topic|
        invariant 0 <= i <= 2 && i <= |topic|
        invariant message[..] ==
          if i == 0 then old(message[..]) else if i == 1 then old(message[..])[3 := topic[0]]
          else old(message[..])[3 := topic[0]][4 := topic[1]]
      {
        message[3 + i] := topic[i];
        i := i + 1;
      }
      topicId := GetUint16(message[3], message[4]);
    }

    method PutMsgId(id: uint16)
      requires Ok()
      modifies this`msgId, message
      ensures Ok() && State() == Apply(old(State()), SetMsgId(id))
    {
      message[5] := id / 256;
      message[6] := id % 256;
      msgId := id;
    }

    /** allocate, with the length already cut to 8 bits, and memcpy into the new block. */
    method Allocate(length: byte, pos: nat, data: seq<byte>)
      requires 7 <= length && 2 <= pos && pos + |data| == length
      modifies this`message
      ensures Ok() && fresh(message)
      ensures message[..] == Overwrite(Allocated(length, msgType), pos, data)
    {
      var t := msgType;
      message := new byte[length](i requires 0 <= i < length =>
        if i == 0 then length else if i == 1 then t else if i < pos then 0 else data[i - pos]);
    }

    method PutData(data: seq<byte>)
      requires Ok() && Callable(SetData(data))
      modifies this
      ensures Ok() && fresh(message) && State() == Apply(old(State()), SetData(data))
    {
      Allocate(7 + |data|, 7, data);
      PutTopicId(topicId);
      PutMsgId(msgId);
      PutFlags(flags);
    }

    method PutFrame(body: seq<byte>)
      requires Ok() && Callable(SetFrame(body))
      modifies this
      ensures Ok() && fresh(message) && State() == Apply(old(State()), SetFrame(body))
    {
      Allocate(|body| + 2, 2, body);
      topicId := GetUint16(body[1], body[2]);
      msgId := GetUint16(body[3], body[4]);
      flags := body[0];
    }

    method AbsorbMessage(src: array<byte>)
      requires Ok() && Callable(Absorb(src[..]))
      modifies this
      ensures Ok() && fresh(message) && State() == Apply(old(State()), Absorb(src[..]))
    {
      msgId := GetUint16(src[5], src[6]);
      flags := src[2];
      topicId := GetUint16(src[3], src[4]);
      msgType := src[1];
      Allocate(src.Length, 2, src[2..]);
      assert src[2..] == src[..][2..];
    }

    method AbsorbPayload(payload: array<byte>)
      requires Ok() && Callable(AbsorbResponse(payload[..]))
      modifies this
      ensures Ok() && fresh(message) && State() == Apply(old(State()), AbsorbResponse(payload[..]))
    {
      msgType := payload[1];
      message := new byte[payload.Length](i requires 0 <= i < payload.Length reads payload => payload[i]);
      assert message[..] == payload[..];
    }
  }
}
