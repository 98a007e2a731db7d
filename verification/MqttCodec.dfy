/** MQTT packets: what the serializers write, what the deserializers read back, and a reader of
    CONNECT, SUBSCRIBE and UNSUBSCRIBE written from chapter 3 of MQTT V3.1. */
module MqttCodec {
  import opened Bytes
  import opened RemainingLengths

  const TYPE_CONNECT: byte := 0x10
  const TYPE_CONNACK: byte := 0x20
  const TYPE_PUBLISH: byte := 0x30
  const TYPE_PUBACK: byte := 0x40
  const TYPE_SUBSCRIBE: byte := 0x80
  const TYPE_SUBACK: byte := 0x90
  const TYPE_UNSUBSCRIBE: byte := 0xa0
  const TYPE_UNSUBACK: byte := 0xb0
  const TYPE_PINGREQ: byte := 0xc0
  const TYPE_PINGRESP: byte := 0xd0
  const TYPE_DISCONNECT: byte := 0xe0

  /** "MQIsdp" */
  const PROTOCOL_NAME: Str := [0x4d, 0x51, 0x49, 0x73, 0x64, 0x70]
  const PROTOCOL_VERSION: byte := 3

  const WILL_FLAG := 0x04
  const WILL_QOS_1 := 0x08
  const PASSWORD_FLAG := 0x40
  const USER_NAME_FLAG := 0x80

  /** utfSerialize: the length is cut to 16 bits, the characters are not. */
  function Utf(s: Str): seq<byte> {
    PutUint16(|s| % 65536) + s
  }

  /** First byte, Remaining Length (a uint16_t), the rest. */
  function Packet(first: byte, body: seq<byte>): seq<byte> {
    [first] + Encode(|body| % 65536) + body
  }

  // ---------- MQTTConnect ----------

  datatype Connect = Connect(
    connectFlags: byte, keepAlive: uint16, clientId: Str,
    willTopic: Str, willMessage: Str, userName: Str, password: Str)
  {
    /** setWillMessage: the flag bits are masked with 0xdb before the Will bit is set. */
    function SetWillMessage(m: Str): Connect {
      this.(willMessage := m, connectFlags := SetBit(ClearBit(connectFlags, 32), WILL_FLAG))
    }

    function SetWillTopic(t: Str): Connect {
      this.(willTopic := t, connectFlags := SetBit(ClearBit(connectFlags, 32), WILL_FLAG))
    }

    /** setWillQos(qos) keeps bits 3 and 4 and drops all the others. The only caller passes
        getQos() of a WILLTOPIC, a truth value shifted right by 5 places: 0. */
    function SetWillQosZero(): Connect {
      this.(connectFlags := ((connectFlags / 8) % 4) * 8)
    }

    function SetCleanSessionFlg(): Connect {
      this.(connectFlags := (connectFlags / 4) * 4 + 2)
    }
  }

  function NewConnect(clientId: Str, keepAlive: uint16): Connect {
    Connect(0, keepAlive, clientId, [], [], [], [])
  }

  // The flag setters, as the C++ operators on the byte.

  lemma WillFlagsAre(c: Connect, s: Str, b: bv8)
    requires c.connectFlags == b as int
    ensures c.SetWillMessage(s).connectFlags == c.SetWillTopic(s).connectFlags == ((b & 0xdb) | 0x04) as int
  {
    Bit5(b);
    Bit2(b & !0x20);
    assert (b & !0x20) | 0x04 == (b & 0xdb) | 0x04;
  }

  lemma WillQosIs(c: Connect, b: bv8)
    requires c.connectFlags == b as int
    ensures c.SetWillQosZero().connectFlags == (b & 0x18) as int
  {
  }

  lemma CleanSessionIs(c: Connect, b: bv8)
    requires c.connectFlags == b as int
    ensures c.SetCleanSessionFlg().connectFlags == ((b & 0xfc) | 0x02) as int
  {
  }

  /** _connectFlags & 0x0c */
  predicate SendsWill(c: Connect) {
    HasBit(c.connectFlags, WILL_FLAG) || HasBit(c.connectFlags, WILL_QOS_1)
  }

  function WillPart(c: Connect): seq<byte> {
    if SendsWill(c) then Utf(c.willTopic) + Utf(c.willMessage) else []
  }

  function UserPart(c: Connect): seq<byte> {
    if HasBit(c.connectFlags, USER_NAME_FLAG) then Utf(c.userName) else []
  }

  function PasswordPart(c: Connect): seq<byte> {
    if HasBit(c.connectFlags, PASSWORD_FLAG) then Utf(c.password) else []
  }

  function FixedPart(c: Connect): seq<byte> {
    Utf(PROTOCOL_NAME) + [PROTOCOL_VERSION, c.connectFlags] + PutUint16(c.keepAlive) + Utf(c.clientId)
  }

  /** Everything after the fixed header. */
  function ConnectBody(c: Connect): seq<byte> {
    FixedPart(c) + WillPart(c) + UserPart(c) + PasswordPart(c)
  }

  function SerializeConnect(c: Connect): seq<byte> {
    Packet(TYPE_CONNECT, ConnectBody(c))
  }

  // ---------- MQTTPublish, MQTTSubscribe, MQTTUnsubscribe ----------

  /** `flags` are the low four bits of the first byte. The payload length is a uint8_t. */
  datatype Publish = Publish(flags: byte, topic: Str, messageId: uint16, payload: seq<byte>)

  /** The message id is written for every QoS. */
  function PublishBody(p: Publish): seq<byte> {
    Utf(p.topic) + PutUint16(p.messageId) + p.payload
  }

  function SerializePublish(p: Publish): seq<byte> {
    Packet(TYPE_PUBLISH + p.flags % 16, PublishBody(p))
  }

  datatype Subscribe = Subscribe(flags: byte, messageId: uint16, topic: Str, qos: byte)

  function SubscribeBody(m: Subscribe): seq<byte> {
    PutUint16(m.messageId) + Utf(m.topic) + [m.qos]
  }

  function SerializeSubscribe(m: Subscribe): seq<byte> {
    Packet(TYPE_SUBSCRIBE + m.flags % 16, SubscribeBody(m))
  }

  datatype Unsubscribe = Unsubscribe(flags: byte, messageId: uint16, topic: Str)

  function UnsubscribeBody(m: Unsubscribe): seq<byte> {
    PutUint16(m.messageId) + Utf(m.topic)
  }

  function SerializeUnsubscribe(m: Unsubscribe): seq<byte> {
    Packet(TYPE_UNSUBSCRIBE + m.flags % 16, UnsubscribeBody(m))
  }

  // ---------- The serializers ----------

  /** memcpy to the buffer pointer, and the pointer moved on. */
  method Append(buf: array<byte>, pos: nat, bytes: seq<byte>) returns (next: nat)
    requires pos + |bytes| <= buf.Length
    modifies buf
    ensures next == pos + |bytes|
    ensures buf[..next] == old(buf[..pos]) + bytes && forall k | next <= k < buf.Length :: buf[k] == old(buf[k])
  {
    var i := 0;
    while i < |bytes|
      invariant 0 <= i <= |bytes|
      invariant buf[..pos] == old(buf[..pos]) && buf[pos..pos + i] == bytes[..i]
      invariant forall k | pos + i <= k < buf.Length :: buf[k] == old(buf[k])
    {
      ghost var done := buf[pos..pos + i];
      buf[pos + i] := bytes[i];
      assert buf[pos..pos + i + 1] == done + [bytes[i]] == bytes[..i + 1];
      i := i + 1;
    }
    next := pos + |bytes|;
    assert buf[pos..next] == bytes[..|bytes|] == bytes;
    assert buf[..next] == buf[..pos] + buf[pos..next];
  }

  method AppendUtf(buf: array<byte>, pos: nat, s: Str) returns (next: nat)
    requires pos + 2 + |s| <= buf.Length
    modifies buf
    ensures next == pos + 2 + |s|
    ensures buf[..next] == old(buf[..pos]) + Utf(s) && forall k | next <= k < buf.Length :: buf[k] == old(buf[k])
  {
    next := Append(buf, pos, PutUint16(|s| % 65536));
    next := Append(buf, next, s);
    assert buf[..next] == old(buf[..pos]) + PutUint16(|s| % 65536) + s;
  }

  method AppendUtfIf(included: bool, buf: array<byte>, pos: nat, s: Str) returns (next: nat)
    requires pos + (if included then 2 + |s| else 0) <= buf.Length
    modifies buf
    ensures next == pos + (if included then 2 + |s| else 0)
    ensures buf[..next] == old(buf[..pos]) + (if included then Utf(s) else [])
    ensures forall k | next <= k < buf.Length :: buf[k] == old(buf[k])
  {
    next := pos;
    if included {
      next := AppendUtf(buf, pos, s);
    }
  }

  /** First byte and Remaining Length; `total` is what serialize returns. */
  method AppendHeader(buf: array<byte>, first: byte, len: uint16) returns (next: nat, total: uint16)
    requires 1 + |Encode(len)| <= buf.Length
    modifies buf
    ensures next == 1 + |Encode(len)|
    ensures buf[..next] == [first] + Encode(len) && forall k | next <= k < buf.Length :: buf[k] == old(buf[k])
    ensures total == (1 + |Encode(len)| + len) % 65536
  {
    var remLen := new RemainingLength();
    remLen.EncodeLength(len);
    next := Append(buf, 0, [first]);
    next := Append(buf, next, remLen.digit[..remLen.size]);
    assert remLen.digit[..] == Encode(len) + remLen.digit[remLen.size..];
    RemainingLengthRoundTrip(len, remLen.digit[remLen.size..]);
    var decoded := remLen.DecodeLength();
    total := (1 + remLen.size + decoded) % 65536;
  }

  method WriteConnect(c: Connect, buf: array<byte>) returns (n: uint16)
    requires |SerializeConnect(c)| <= buf.Length
    modifies buf
    ensures var s := SerializeConnect(c); buf[..|s|] == s && forall k | |s| <= k < buf.Length :: buf[k] == old(buf[k])
    ensures n == |SerializeConnect(c)| % 65536
  {
    var len := ComputeLength(c);
    EncodeSize(len % 65536);
    AddModulo(1 + |Encode(len % 65536)|, len);
    var pos;
    pos, n := AppendHeader(buf, TYPE_CONNECT, len % 65536);
    ghost var head := buf[..pos];
    assert |head| == 1 + |Encode(len % 65536)|;
    pos := AppendConnectBody(buf, pos, c);
    assert buf[..pos] == SerializeConnect(c);
  }

  method AppendConnectBody(buf: array<byte>, pos: nat, c: Connect) returns (next: nat)
    requires pos + |ConnectBody(c)| <= buf.Length
    modifies buf
    ensures next == pos + |ConnectBody(c)|
    ensures buf[..next] == old(buf[..pos]) + ConnectBody(c)
    ensures forall k | next <= k < buf.Length :: buf[k] == old(buf[k])
  {
    ghost var head := buf[..pos];
    ghost var a, w, u, x := FixedPart(c), WillPart(c), UserPart(c), PasswordPart(c);
    assert |ConnectBody(c)| == |a| + |w| + |u| + |x|;
    next := AppendFixed(buf, pos, c);
    next := AppendWill(buf, next, c);
    next := AppendUtfIf(HasBit(c.connectFlags, USER_NAME_FLAG), buf, next, c.userName);
    next := AppendUtfIf(HasBit(c.connectFlags, PASSWORD_FLAG), buf, next, c.password);
    assert buf[..next] == head + a + w + u + x;
    FiveParts(head, a, w, u, x);
  }

  lemma FiveParts(head: seq<byte>, a: seq<byte>, b: seq<byte>, c: seq<byte>, d: seq<byte>)
    ensures head + a + b + c + d == head + (a + b + c + d)
  {
  }

  method AppendWill(buf: array<byte>, pos: nat, c: Connect) returns (next: nat)
    requires pos + |WillPart(c)| <= buf.Length
    modifies buf
    ensures next == pos + |WillPart(c)|
    ensures buf[..next] == old(buf[..pos]) + WillPart(c)
    ensures forall k | next <= k < buf.Length :: buf[k] == old(buf[k])
  {
    next := pos;
    if HasBit(c.connectFlags, WILL_FLAG) || HasBit(c.connectFlags, WILL_QOS_1) {
      next := AppendUtf(buf, next, c.willTopic);
      next := AppendUtf(buf, next, c.willMessage);
      assert buf[..next] == old(buf[..pos]) + Utf(c.willTopic) + Utf(c.willMessage);
    }
  }

  method ComputeLength(c: Connect) returns (len: nat)
    ensures len == |ConnectBody(c)|
  {
    len := 12;
    len := len + |c.clientId| + 2;
    if HasBit(c.connectFlags, WILL_FLAG) || HasBit(c.connectFlags, WILL_QOS_1) {
      len := len + |c.willTopic| + 2;
      len := len + |c.willMessage| + 2;
    }
    if HasBit(c.connectFlags, USER_NAME_FLAG) {
      len := len + |c.userName| + 2;
    }
    if HasBit(c.connectFlags, PASSWORD_FLAG) {
      len := len + |c.password| + 2;
    }
  }

  /** Protocol name and version, flags, keep-alive timer, client id. */
  method AppendFixed(buf: array<byte>, pos: nat, c: Connect) returns (next: nat)
    requires pos + |FixedPart(c)| <= buf.Length
    modifies buf
    ensures next == pos + |FixedPart(c)|
    ensures buf[..next] == old(buf[..pos]) + FixedPart(c)
    ensures forall k | next <= k < buf.Length :: buf[k] == old(buf[k])
  {
    next := AppendUtf(buf, pos, PROTOCOL_NAME);
    next := Append(buf, next, [PROTOCOL_VERSION]);
    next := Append(buf, next, [c.connectFlags]);
    next := Append(buf, next, PutUint16(c.keepAlive));
    next := AppendUtf(buf, next, c.clientId);
    assert buf[..next] == old(buf[..pos])
      + Utf(PROTOCOL_NAME) + [PROTOCOL_VERSION] + [c.connectFlags] + PutUint16(c.keepAlive) + Utf(c.clientId);
  }

  method WritePublish(p: Publish, buf: array<byte>) returns (n: uint16)
    requires |SerializePublish(p)| <= buf.Length
    modifies buf
    ensures var s := SerializePublish(p); buf[..|s|] == s && forall k | |s| <= k < buf.Length :: buf[k] == old(buf[k])
    ensures n == |SerializePublish(p)| % 65536
  {
    var len := |p.topic| + 2 + 2 + |p.payload|;
    assert len == |PublishBody(p)|;
    EncodeSize(len % 65536);
    AddModulo(1 + |Encode(len % 65536)|, len);
    var pos;
    pos, n := AppendHeader(buf, TYPE_PUBLISH + p.flags % 16, len % 65536);
    pos := AppendPublishBody(buf, pos, p);
    assert buf[..pos] == SerializePublish(p);
  }

  method AppendPublishBody(buf: array<byte>, pos: nat, p: Publish) returns (next: nat)
    requires pos + |PublishBody(p)| <= buf.Length
    modifies buf
    ensures next == pos + |PublishBody(p)|
    ensures buf[..next] == old(buf[..pos]) + PublishBody(p)
    ensures forall k | next <= k < buf.Length :: buf[k] == old(buf[k])
  {
    next := AppendUtf(buf, pos, p.topic);
    next := Append(buf, next, PutUint16(p.messageId));
    next := Append(buf, next, p.payload);
    assert buf[..next] == old(buf[..pos]) + Utf(p.topic) + PutUint16(p.messageId) + p.payload;
  }

  method WriteSubscribe(m: Subscribe, buf: array<byte>) returns (n: uint16)
    requires |SerializeSubscribe(m)| <= buf.Length
    modifies buf
    ensures var s := SerializeSubscribe(m); buf[..|s|] == s && forall k | |s| <= k < buf.Length :: buf[k] == old(buf[k])
    ensures n == |SerializeSubscribe(m)| % 65536
  {
    var len := |m.topic| + 5;
    EncodeSize(len % 65536);
    AddModulo(1 + |Encode(len % 65536)|, len);
    var pos;
    pos, n := AppendHeader(buf, TYPE_SUBSCRIBE + m.flags % 16, len % 65536);
    assert |SerializeSubscribe(m)| == pos + len && len == |SubscribeBody(m)|;
    pos := AppendSubscribeBody(buf, pos, m);
    assert buf[..pos] == SerializeSubscribe(m);
  }

  method AppendSubscribeBody(buf: array<byte>, pos: nat, m: Subscribe) returns (next: nat)
    requires pos + |SubscribeBody(m)| <= buf.Length
    modifies buf
    ensures next == pos + |SubscribeBody(m)|
    ensures buf[..next] == old(buf[..pos]) + SubscribeBody(m)
    ensures forall k | next <= k < buf.Length :: buf[k] == old(buf[k])
  {
    next := Append(buf, pos, PutUint16(m.messageId));
    next := AppendUtf(buf, next, m.topic);
    next := Append(buf, next, [m.qos]);
    assert buf[..next] == old(buf[..pos]) + PutUint16(m.messageId) + Utf(m.topic) + [m.qos];
  }

  method WriteUnsubscribe(m: Unsubscribe, buf: array<byte>) returns (n: uint16)
    requires |SerializeUnsubscribe(m)| <= buf.Length
    modifies buf
    ensures var s := SerializeUnsubscribe(m); buf[..|s|] == s && forall k | |s| <= k < buf.Length :: buf[k] == old(buf[k])
    ensures n == |SerializeUnsubscribe(m)| % 65536
  {
    var len := |m.topic| + 4;
    EncodeSize(len % 65536);
    AddModulo(1 + |Encode(len % 65536)|, len);
    var pos;
    pos, n := AppendHeader(buf, TYPE_UNSUBSCRIBE + m.flags % 16, len % 65536);
    assert |SerializeUnsubscribe(m)| == pos + len && len == |UnsubscribeBody(m)|;
    pos := AppendUnsubscribeBody(buf, pos, m);
    assert buf[..pos] == SerializeUnsubscribe(m);
  }

  method AppendUnsubscribeBody(buf: array<byte>, pos: nat, m: Unsubscribe) returns (next: nat)
    requires pos + |UnsubscribeBody(m)| <= buf.Length
    modifies buf
    ensures next == pos + |UnsubscribeBody(m)|
    ensures buf[..next] == old(buf[..pos]) + UnsubscribeBody(m)
    ensures forall k | next <= k < buf.Length :: buf[k] == old(buf[k])
  {
    next := Append(buf, pos, PutUint16(m.messageId));
    next := AppendUtf(buf, next, m.topic);
    assert buf[..next] == old(buf[..pos]) + PutUint16(m.messageId) + Utf(m.topic);
  }
}
