/** A reader of CONNECT, SUBSCRIBE, UNSUBSCRIBE and PUBLISH packets written from sections 2.1, 2.4,
    3.1, 3.3, 3.8 and 3.10 of MQTT V3.1, and what it makes of the serialized packets. */
module MqttReference {
  import opened Wrappers
  import opened Bytes
  import opened RemainingLengths
  import opened MqttCodec

  datatype Parsed<+T> = Fail | Got(value: T, rest: seq<byte>)

  function ReadByte(bs: seq<byte>): Parsed<byte> {
    if bs == [] then Fail else Got(bs[0], bs[1..])
  }

  function ReadUint16(bs: seq<byte>): Parsed<uint16> {
    if |bs| < 2 then Fail else Got(GetUint16(bs[0], bs[1]), bs[2..])
  }

  /** Section 2.5: two length bytes, then that many characters. */
  function ReadUtf(bs: seq<byte>): Parsed<Str> {
    match ReadUint16(bs)
    case Fail => Fail
    case Got(n, rest) => if |rest| < n then Fail else Got(rest[..n], rest[n..])
  }

  /** Section 2.1: the first byte and the Remaining Length, of at most four bytes, which must be
      the exact length of what follows. */
  function ReadHeader(bs: seq<byte>): Parsed<byte> {
    if bs == [] || !Terminated(bs[1..]) then Fail
    else
      var n := UsedDigits(bs[1..]);
      if n > 4 || Value(bs[1..]) != |bs| - 1 - n then Fail else Got(bs[0], bs[1 + n..])
  }

  datatype ConnectFields = ConnectFields(
    flags: byte, keepAlive: uint16, clientId: Str,
    will: Option<(Str, Str)>, userName: Option<Str>, password: Option<Str>)

  function ReadWill(bs: seq<byte>): Parsed<(Str, Str)> {
    match ReadUtf(bs)
    case Fail => Fail
    case Got(topic, rest) =>
      match ReadUtf(rest)
      case Fail => Fail
      case Got(message, rest) => Got((topic, message), rest)
  }

  function ReadUtfIf(present: bool, bs: seq<byte>): Parsed<Option<Str>> {
    if !present then Got(None, bs)
    else match ReadUtf(bs) case Fail => Fail case Got(s, rest) => Got(Some(s), rest)
  }

  function ReadWillIf(present: bool, bs: seq<byte>): Parsed<Option<(Str, Str)>> {
    if !present then Got(None, bs)
    else match ReadWill(bs) case Fail => Fail case Got(w, rest) => Got(Some(w), rest)
  }

  /** Payload of section 3.1, after the Will; nothing may be left over. */
  function ReadCredentials(f: ConnectFields, bs: seq<byte>): Option<ConnectFields> {
    match ReadUtfIf(HasBit(f.flags, 0x80), bs)
    case Fail => None
    case Got(user, rest) =>
      match ReadUtfIf(HasBit(f.flags, 0x40), rest)
      case Fail => None
      case Got(password, end) =>
        if end != [] then None else Some(f.(userName := user, password := password))
  }

  /** Section 3.1: User Name, Password and Will flags are bits 7, 6 and 2;
      Will QoS 3 is reserved, and a password goes with a user name. */
  predicate FlagsAllowed(flags: byte) {
    && (HasBit(flags, 0x04) ==> (flags / 8) % 4 != 3)
    && (HasBit(flags, 0x40) ==> HasBit(flags, 0x80))
  }

  function ReadConnectTail(f: ConnectFields, bs: seq<byte>): Option<ConnectFields> {
    if !FlagsAllowed(f.flags) then None
    else match ReadWillIf(HasBit(f.flags, 0x04), bs)
    case Fail => None
    case Got(will, rest) => ReadCredentials(f.(will := will), rest)
  }

  /** Version, flags, keep-alive timer and client id. */
  function ReadConnectHead(bs: seq<byte>): Parsed<ConnectFields> {
    if |bs| < 4 || bs[0] != 3 then Fail
    else match ReadUtf(bs[4..])
      case Fail => Fail
      case Got(clientId, rest) =>
        Got(ConnectFields(bs[1], GetUint16(bs[2], bs[3]), clientId, None, None, None), rest)
  }

  /** Section 3.1. */
  function ReadConnect(bs: seq<byte>): Option<ConnectFields> {
    match ReadHeader(bs)
    case Fail => None
    case Got(first, body) =>
      if first / 16 != 1 then None else ReadConnectBody(body)
  }

  /** The protocol name is MQIsdp. */
  function ReadConnectBody(body: seq<byte>): Option<ConnectFields> {
    match ReadUtf(body)
    case Fail => None
    case Got(name, rest) =>
      if name != [0x4d, 0x51, 0x49, 0x73, 0x64, 0x70] then None
      else match ReadConnectHead(rest)
        case Fail => None
        case Got(f, tail) => ReadConnectTail(f, tail)
  }

  /** What a CONNECT object means, by the flags that section 3.1 assigns to its fields. */
  function FieldsOf(c: Connect): ConnectFields {
    ConnectFields(
      c.connectFlags, c.keepAlive, c.clientId,
      if HasBit(c.connectFlags, 0x04) then Some((c.willTopic, c.willMessage)) else None,
      if HasBit(c.connectFlags, 0x80) then Some(c.userName) else None,
      if HasBit(c.connectFlags, 0x40) then Some(c.password) else None)
  }

  lemma ReadUtfOfUtf(s: Str, rest: seq<byte>)
    requires |s| < 65536
    ensures ReadUtf(Utf(s) + rest) == Got(s, rest)
  {
    var bs := Utf(s) + rest;
    assert bs[2..] == s + rest;
    assert GetUint16(bs[0], bs[1]) == |s|;
  }

  lemma HeaderParts(first: byte, ds: seq<byte>, body: seq<byte>)
    requires Terminated(ds + body) && UsedDigits(ds + body) == |ds| <= 4 && Value(ds + body) == |body|
    ensures ReadHeader([first] + ds + body) == Got(first, body)
  {
    var bs := [first] + ds + body;
    assert bs[1..] == ds + body;
    assert bs[1 + |ds|..] == body;
    HeaderByParts(bs, first, ds + body, body);
  }

  lemma HeaderByParts(bs: seq<byte>, first: byte, rest: seq<byte>, body: seq<byte>)
    requires bs != [] && bs[0] == first && bs[1..] == rest && Terminated(rest) && UsedDigits(rest) <= 4
    requires Value(rest) == |body| && bs[1 + UsedDigits(rest)..] == body
    ensures ReadHeader(bs) == Got(first, body)
  {
  }

  lemma EncodedHeader(first: byte, len: uint16, body: seq<byte>)
    requires |body| == len
    ensures ReadHeader([first] + Encode(len) + body) == Got(first, body)
  {
    EncodeSize(len);
    ValueOfEncode(len, body);
    HeaderParts(first, Encode(len), body);
  }

  lemma ReadHeaderOf(first: byte, body: seq<byte>)
    requires |body| < 65536
    ensures ReadHeader(Packet(first, body)) == Got(first, body)
  {
    EncodedHeader(first, |body| % 65536, body);
  }

  lemma HeadReads(c: Connect, tail: seq<byte>)
    requires |c.clientId| < 65536
    ensures ReadConnectHead([PROTOCOL_VERSION, c.connectFlags] + PutUint16(c.keepAlive) + (Utf(c.clientId) + tail)) ==
      Got(ConnectFields(c.connectFlags, c.keepAlive, c.clientId, None, None, None), tail)
  {
    var bs := [PROTOCOL_VERSION, c.connectFlags] + PutUint16(c.keepAlive) + (Utf(c.clientId) + tail);
    assert bs[4..] == Utf(c.clientId) + tail;
    ReadUtfOfUtf(c.clientId, tail);
  }

  lemma BodyReads(c: Connect, tail: seq<byte>)
    requires |c.clientId| < 65536
    ensures ReadConnectBody(FixedPart(c) + tail) ==
      ReadConnectTail(ConnectFields(c.connectFlags, c.keepAlive, c.clientId, None, None, None), tail)
  {
    var r1 := [PROTOCOL_VERSION, c.connectFlags] + PutUint16(c.keepAlive) + (Utf(c.clientId) + tail);
    assert FixedPart(c) + tail == Utf(PROTOCOL_NAME) + r1;
    ReadUtfOfUtf(PROTOCOL_NAME, r1);
    HeadReads(c, tail);
  }

  /** The fields the two flags select. */
  function Selected(c: Connect): seq<byte> {
    UserPart(c) + PasswordPart(c)
  }

  lemma ReadsIf(present: bool, s: Str, rest: seq<byte>)
    requires present ==> |s| < 65536
    ensures ReadUtfIf(present, (if present then Utf(s) else []) + rest) == Got(if present then Some(s) else None, rest)
  {
    if present {
      ReadUtfOfUtf(s, rest);
    } else {
      assert [] + rest == rest;
    }
  }

  lemma CredentialsRead(c: Connect, f: ConnectFields)
    requires |Selected(c)| < 65536 && f.flags == c.connectFlags
    ensures ReadCredentials(f, Selected(c)) ==
      Some(f.(userName := FieldsOf(c).userName, password := FieldsOf(c).password))
  {
    ReadsIf(HasBit(c.connectFlags, USER_NAME_FLAG), c.userName, PasswordPart(c));
    ReadsIf(HasBit(c.connectFlags, PASSWORD_FLAG), c.password, []);
    assert PasswordPart(c) + [] == PasswordPart(c);
  }

  lemma WillReads(c: Connect, rest: seq<byte>)
    requires |c.willTopic| < 65536 && |c.willMessage| < 65536
    ensures ReadWill(Utf(c.willTopic) + Utf(c.willMessage) + rest) == Got((c.willTopic, c.willMessage), rest)
  {
    assert Utf(c.willTopic) + Utf(c.willMessage) + rest == Utf(c.willTopic) + (Utf(c.willMessage) + rest);
    ReadUtfOfUtf(c.willTopic, Utf(c.willMessage) + rest);
    ReadUtfOfUtf(c.willMessage, rest);
  }

  lemma TailReads(c: Connect, f: ConnectFields)
    requires |WillPart(c) + Selected(c)| < 65536
    requires f == ConnectFields(c.connectFlags, c.keepAlive, c.clientId, None, None, None)
    requires HasBit(c.connectFlags, WILL_QOS_1) ==> HasBit(c.connectFlags, WILL_FLAG)
    requires FlagsAllowed(c.connectFlags)
    ensures ReadConnectTail(f, WillPart(c) + Selected(c)) == Some(FieldsOf(c))
  {
    if HasBit(c.connectFlags, WILL_FLAG) {
      WillReads(c, Selected(c));
    } else {
      assert WillPart(c) + Selected(c) == Selected(c);
    }
    CredentialsRead(c, f.(will := FieldsOf(c).will));
  }

  /** Reading the credentials where strings are that should not be there leaves strings over. */
  lemma CredentialsLeaveOver(f: ConnectFields, a: Str, b: Str, rest: seq<byte>)
    requires |a| < 65536 && |b| < 65536
    requires HasBit(f.flags, USER_NAME_FLAG) && HasBit(f.flags, PASSWORD_FLAG) ==> rest != []
    ensures ReadCredentials(f, Utf(a) + (Utf(b) + rest)) == None
  {
    ReadUtfOfUtf(a, Utf(b) + rest);
    ReadUtfOfUtf(b, rest);
  }

  lemma WillInFront(c: Connect)
    requires SendsWill(c)
    ensures WillPart(c) + Selected(c) == Utf(c.willTopic) + (Utf(c.willMessage) + Selected(c))
  {
  }

  /** With the Will QoS bit but not the Will flag, two strings too many are written. */
  lemma StrayWill(c: Connect, f: ConnectFields)
    requires |WillPart(c) + Selected(c)| < 65536
    requires f.flags == c.connectFlags && f.will == None
    requires HasBit(c.connectFlags, WILL_QOS_1) && !HasBit(c.connectFlags, WILL_FLAG)
    ensures ReadConnectTail(f, WillPart(c) + Selected(c)) == None
  {
    WillInFront(c);
    CredentialsLeaveOver(f, c.willTopic, c.willMessage, Selected(c));
  }

  /** CONNECT layout, exactly. For every combination of flags and all strings with a total that
      fits 16 bits: a reader of the standard recovers every field and finds the packet ending
      where its Remaining Length says, if and only if the flags are ones the standard allows, and
      the Will QoS 1 bit does not come without the Will flag. */
  lemma ConnectLayoutIff(c: Connect)
    requires |ConnectBody(c)| < 65536
    ensures ReadConnect(SerializeConnect(c)) == Some(FieldsOf(c))
      <==> FlagsAllowed(c.connectFlags) && (HasBit(c.connectFlags, WILL_QOS_1) ==> HasBit(c.connectFlags, WILL_FLAG))
  {
    ReadHeaderOf(TYPE_CONNECT, ConnectBody(c));
    ConnectBodyIff(c);
  }

  lemma ConnectBodyIff(c: Connect)
    requires |ConnectBody(c)| < 65536
    ensures ReadConnectBody(ConnectBody(c)) == Some(FieldsOf(c))
      <==> FlagsAllowed(c.connectFlags) && (HasBit(c.connectFlags, WILL_QOS_1) ==> HasBit(c.connectFlags, WILL_FLAG))
  {
    var tail := WillPart(c) + Selected(c);
    var f := ConnectFields(c.connectFlags, c.keepAlive, c.clientId, None, None, None);
    ConnectBodyRegroups(c);
    assert |tail| < 65536 && |c.clientId| < 65536;
    BodyReads(c, tail);
    assert ReadConnectBody(ConnectBody(c)) == ReadConnectTail(f, tail);
    if HasBit(c.connectFlags, WILL_QOS_1) && !HasBit(c.connectFlags, WILL_FLAG) {
      StrayWill(c, f);
    } else if FlagsAllowed(c.connectFlags) {
      TailReads(c, f);
    }
  }

  lemma ConnectBodyRegroups(c: Connect)
    ensures ConnectBody(c) == FixedPart(c) + (WillPart(c) + Selected(c))
    ensures |ConnectBody(c)| >= |WillPart(c) + Selected(c)| + |c.clientId|
  {
  }

  // ---------- SUBSCRIBE and UNSUBSCRIBE ----------

  /** Section 2.1: bits 2 and 1 of the first byte. */
  function HeaderQos(first: byte): nat {
    (first / 2) % 4
  }

  /** Section 2.4: message id 0 is reserved. */
  function ReadMessageId(bs: seq<byte>): Parsed<uint16> {
    match ReadUint16(bs)
    case Fail => Fail
    case Got(id, rest) => if id == 0 then Fail else Got(id, rest)
  }

  /** Section 3.8, for one topic: message id, topic, requested QoS, which is 0, 1 or 2. */
  function ReadSubscribeBody(body: seq<byte>): Option<(uint16, Str, byte)> {
    match ReadMessageId(body)
    case Fail => None
    case Got(id, more) =>
      match ReadUtf(more)
      case Fail => None
      case Got(topic, rest) => if |rest| != 1 || rest[0] > 2 then None else Some((id, topic, rest[0]))
  }

  /** The packet itself is sent with QoS 1. */
  function ReadSubscribe(bs: seq<byte>): Option<(uint16, Str, byte)> {
    match ReadHeader(bs)
    case Fail => None
    case Got(first, body) => if first / 16 != 8 || HeaderQos(first) != 1 then None else ReadSubscribeBody(body)
  }

  /** Section 3.10, for one topic. */
  function ReadUnsubscribeBody(body: seq<byte>): Option<(uint16, Str)> {
    match ReadMessageId(body)
    case Fail => None
    case Got(id, more) =>
      match ReadUtf(more)
      case Fail => None
      case Got(topic, rest) => if rest != [] then None else Some((id, topic))
  }

  function ReadUnsubscribe(bs: seq<byte>): Option<(uint16, Str)> {
    match ReadHeader(bs)
    case Fail => None
    case Got(first, body) => if first / 16 != 10 || HeaderQos(first) != 1 then None else ReadUnsubscribeBody(body)
  }

  lemma SubscribeBodyReads(m: Subscribe)
    requires |m.topic| < 65536
    ensures ReadSubscribeBody(SubscribeBody(m)) ==
      if m.messageId != 0 && m.qos <= 2 then Some((m.messageId, m.topic, m.qos)) else None
  {
    assert SubscribeBody(m)[2..] == Utf(m.topic) + [m.qos];
    ReadUtfOfUtf(m.topic, [m.qos]);
  }

  /** Exactly when a reader of section 3.8 gets message id, topic and QoS. */
  lemma SubscribeLayoutIff(m: Subscribe)
    requires |m.topic| + 5 < 65536
    ensures ReadSubscribe(SerializeSubscribe(m)) == Some((m.messageId, m.topic, m.qos))
      <==> (m.flags / 2) % 4 == 1 && m.messageId != 0 && m.qos <= 2
  {
    var first: byte := TYPE_SUBSCRIBE + m.flags % 16;
    ReadHeaderOf(first, SubscribeBody(m));
    SubscribeBodyReads(m);
    FirstByteParts(8, m.flags);
    SubscribeByParts(SerializeSubscribe(m), first, SubscribeBody(m));
  }

  lemma SubscribeByParts(bs: seq<byte>, first: byte, body: seq<byte>)
    requires ReadHeader(bs) == Got(first, body) && first / 16 == 8
    ensures ReadSubscribe(bs) == if HeaderQos(first) == 1 then ReadSubscribeBody(body) else None
  {
  }

  /** Type in the high four bits, flags in the low ones. */
  lemma FirstByteParts(q: nat, flags: byte)
    requires q < 16
    ensures (16 * q + flags % 16) / 16 == q && HeaderQos(16 * q + flags % 16) == (flags / 2) % 4
  {
    var h, r := flags / 16, flags % 16;
    assert flags == 16 * h + r && flags / 2 == 8 * h + r / 2;
    assert (16 * q + r) / 2 == 8 * q + r / 2;
    QosBits(q, r / 2);
    QosBits(h, r / 2);
  }

  lemma QosBits(q: nat, r: nat)
    ensures (8 * q + r) % 4 == r % 4
  {
  }

  lemma UnsubscribeBodyReads(m: Unsubscribe)
    requires |m.topic| < 65536
    ensures ReadUnsubscribeBody(UnsubscribeBody(m)) == if m.messageId != 0 then Some((m.messageId, m.topic)) else None
  {
    assert UnsubscribeBody(m)[2..] == Utf(m.topic) + [];
    ReadUtfOfUtf(m.topic, []);
  }

  lemma UnsubscribeLayoutIff(m: Unsubscribe)
    requires |m.topic| + 4 < 65536
    ensures ReadUnsubscribe(SerializeUnsubscribe(m)) == Some((m.messageId, m.topic))
      <==> (m.flags / 2) % 4 == 1 && m.messageId != 0
  {
    var first: byte := TYPE_UNSUBSCRIBE + m.flags % 16;
    ReadHeaderOf(first, UnsubscribeBody(m));
    UnsubscribeBodyReads(m);
    FirstByteParts(10, m.flags);
    UnsubscribeByParts(SerializeUnsubscribe(m), first, UnsubscribeBody(m));
  }

  lemma UnsubscribeByParts(bs: seq<byte>, first: byte, body: seq<byte>)
    requires ReadHeader(bs) == Got(first, body) && first / 16 == 10
    ensures ReadUnsubscribe(bs) == if HeaderQos(first) == 1 then ReadUnsubscribeBody(body) else None
  {
  }

  // ---------- PUBLISH ----------

  /** Section 3.3: a message id is present only for QoS 1 and 2; QoS 3 is reserved. */
  function ReadPublishBody(qos: nat, body: seq<byte>): Option<(Str, Option<uint16>, seq<byte>)> {
    match ReadUtf(body)
    case Fail => None
    case Got(topic, rest) =>
      if qos == 0 then Some((topic, None, rest))
      else if qos == 3 then None
      else match ReadMessageId(rest)
        case Fail => None
        case Got(id, data) => Some((topic, Some(id), data))
  }

  function ReadPublish(bs: seq<byte>): Option<(Str, Option<uint16>, seq<byte>)> {
    match ReadHeader(bs)
    case Fail => None
    case Got(first, body) => if first / 16 != 3 then None else ReadPublishBody(HeaderQos(first), body)
  }

  lemma PublishBodyReads(p: Publish, qos: nat)
    requires |p.topic| < 65536
    ensures ReadPublishBody(qos, PublishBody(p)) ==
      if qos == 0 then Some((p.topic, None, PutUint16(p.messageId) + p.payload))
      else if qos == 3 || p.messageId == 0 then None
      else Some((p.topic, Some(p.messageId), p.payload))
  {
    var rest := PutUint16(p.messageId) + p.payload;
    assert PublishBody(p) == Utf(p.topic) + rest;
    ReadUtfOfUtf(p.topic, rest);
    assert rest[2..] == p.payload;
  }

  function QosOf(p: Publish): nat {
    (p.flags / 2) % 4
  }

  /** What the standard makes of the fields: no message id for QoS 0. */
  function Meant(p: Publish): (Str, Option<uint16>, seq<byte>) {
    (p.topic, if QosOf(p) == 0 then None else Some(p.messageId), p.payload)
  }

  /** A reader of the standard gets topic, message id and payload of a serialized PUBLISH exactly
      for QoS 1 and 2 with a message id that is not 0. For QoS 0 it takes the message id for two
      bytes of payload. */
  lemma PublishLayoutIff(p: Publish)
    requires |PublishBody(p)| < 65536
    ensures ReadPublish(SerializePublish(p)) == Some(Meant(p)) <==> QosOf(p) in {1, 2} && p.messageId != 0
  {
    var first: byte := TYPE_PUBLISH + p.flags % 16;
    ReadHeaderOf(first, PublishBody(p));
    FirstByteParts(3, p.flags);
    PublishByParts(SerializePublish(p), first, PublishBody(p), QosOf(p));
    PublishBodyIff(p);
  }

  lemma PublishBodyIff(p: Publish)
    requires |p.topic| < 65536
    ensures ReadPublishBody(QosOf(p), PublishBody(p)) == Some(Meant(p)) <==> QosOf(p) in {1, 2} && p.messageId != 0
  {
    PublishBodyReads(p, QosOf(p));
    assert |PutUint16(p.messageId) + p.payload| == 2 + |p.payload|;
  }

  lemma PublishByParts(bs: seq<byte>, first: byte, body: seq<byte>, qos: nat)
    requires ReadHeader(bs) == Got(first, body) && first / 16 == 3 && HeaderQos(first) == qos
    ensures ReadPublish(bs) == ReadPublishBody(qos, body)
  {
  }
}
