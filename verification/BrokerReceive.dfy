/** recvAndFireEvent: one TCP read, cut into packets, decoded, queued. */
module BrokerReceive {
  import opened Bytes
  import opened RemainingLengths
  import opened MqttCodec

  const SOCKET_MAXBUFFER_LENGTH := 500

  /** The six types it handles. */
  datatype BrokerPacket =
    | PubAck(id: uint16)
    | PublishPacket(p: Publish)
    | SubAck(id: uint16, qos: byte)
    | PingResp
    | UnsubAck(id: uint16)
    | ConnAck(returnCode: byte)

  /** What is made of the bytes where `packet` points. Overrun: a byte outside the buffer would be
      read, or a fifth length byte stored. */
  datatype Taken = Taken(packet: BrokerPacket, length: uint16) | UnknownType | Overrun

  /** The deserializer of the type in the first byte. PUBACK, UNSUBACK and CONNACK are read at
      fixed offsets; a payload length is cut to 8 bits. */
  function Deserialize(at: seq<byte>, n: nat, rl: uint16): Taken
    requires at != [] && n <= 4
  {
    var length: uint16 := (1 + n + rl) % 65536;
    var first := (at[0] / 16) * 16;
    if first == TYPE_PINGRESP then Taken(PingResp, length)
    else if first == TYPE_PUBACK || first == TYPE_UNSUBACK then
      if |at| < 4 then Overrun
      else
        var id := GetUint16(at[2], at[3]);
        Taken(if first == TYPE_PUBACK then PubAck(id) else UnsubAck(id), length)
    else if first == TYPE_CONNACK then
      if |at| < 4 then Overrun else Taken(ConnAck(at[3]), length)
    else if first == TYPE_SUBACK then
      if |at| < n + 4 then Overrun
      else Taken(SubAck(GetUint16(at[1 + n], at[2 + n]), at[3 + n]), length)
    else if first == TYPE_PUBLISH then DeserializePublish(at, n, rl, length)
    else UnknownType
  }

  function DeserializePublish(at: seq<byte>, n: nat, rl: uint16, length: uint16): Taken
    requires at != []
  {
    if |at| < 3 + n then Overrun
    else
      var topicLength := GetUint16(at[1 + n], at[2 + n]);
      var idAt := 3 + n + topicLength;
      if |at| < idAt + 2 then Overrun
      else
        var len := (rl - topicLength - 4) % 256;
        if |at| < idAt + 2 + len then Overrun
        else
          var id := GetUint16(at[idAt], at[idAt + 1]);
          Taken(PublishPacket(Publish(at[0] % 16, at[3 + n..idAt], id, at[idAt + 2..idAt + 2 + len])), length)
  }

  predicate Handled(first: byte) {
    first / 16 in {2, 3, 4, 9, 11, 13}
  }

  function Take(at: seq<byte>): Taken
    requires at != []
  {
    if !Handled(at[0]) then UnknownType
    else if !Terminated(at[1..]) || UsedDigits(at[1..]) > 4 then Overrun
    else Deserialize(at, UsedDigits(at[1..]), Decode(at[1..], 1, 0))
  }

  /** How the loop ends. Endless: a packet of length 0 mod 65536, queued again and again. */
  datatype End = Consumed(left: int) | Unknown(left: int) | Outside | Endless

  datatype Cut = Cut(packets: seq<BrokerPacket>, end: End)

  /** The loop, from where `packet` points on, with `left` bytes to go. */
  function Split(at: seq<byte>, left: int): Cut
    requires left <= |at|
    decreases left
  {
    if left <= 0 then Cut([], Consumed(left))
    else match Take(at)
      case UnknownType => Cut([], Unknown(left))
      case Overrun => Cut([], Outside)
      case Taken(p, length) =>
        if length == 0 then Cut([p], Endless)
        else if length >= left then Cut([p], Consumed(left - length))
        else
          var rest := Split(at[length..], left - length);
          Cut([p] + rest.packets, rest.end)
  }

  // ---------- The code ----------

  /** The receiving side of a client: its message queue, and the events posted for it. */
  class Receiver {
    var brokerRecvMessageQue: seq<BrokerPacket>
    var postedEvents: nat

    constructor ()
      ensures brokerRecvMessageQue == [] && postedEvents == 0
    {
      brokerRecvMessageQue, postedEvents := [], 0;
    }

    /** deserialize of the class chosen by the first byte, and the RemainingLength that follows. */
    method DeserializeAt(buffer: array<byte>, pos: nat) returns (t: Taken)
      requires pos < buffer.Length
      ensures t == Take(buffer[pos..])
    {
      ghost var at := buffer[pos..];
      assert at[0] == buffer[pos] && at[1..] == buffer[pos + 1..];
      if !Handled(buffer[pos]) {
        return UnknownType;
      }
      var ends := LengthEnds(buffer, pos + 1);
      if !ends {
        return Overrun;
      }
      var size, value := ReadLength(buffer, pos + 1);
      t := Deserialize(buffer[pos..], size, value);
    }

    /** Whether the field ends within four bytes and within the buffer. */
    method LengthEnds(buffer: array<byte>, pos: nat) returns (ends: bool)
      requires pos <= buffer.Length
      ensures ends <==> Terminated(buffer[pos..]) && UsedDigits(buffer[pos..]) <= 4
    {
      var i := 0;
      while i < 4 && pos + i < buffer.Length && buffer[pos + i] >= 128
        invariant 0 <= i <= 4 && pos + i <= buffer.Length
        invariant forall k | 0 <= k < i :: buffer[pos..][k] >= 128
      {
        i := i + 1;
      }
      DigitsUsed(buffer[pos..], i);
      ends := i < 4 && pos + i < buffer.Length;
    }

    method ReadLength(buffer: array<byte>, pos: nat) returns (size: nat, value: uint16)
      requires pos <= buffer.Length && Terminated(buffer[pos..]) && UsedDigits(buffer[pos..]) <= 4
      ensures size == UsedDigits(buffer[pos..]) && value == Decode(buffer[pos..], 1, 0)
    {
      var rl := new RemainingLength();
      rl.Deserialize(buffer, pos);
      size := rl.size;
      assert rl.digit[..][..size] == rl.digit[..size] == buffer[pos..pos + size] == buffer[pos..][..size];
      OnlyUsedDigits(buffer[pos..], rl.digit[..], 1, 0);
      value := rl.DecodeLength();
    }

    /** setBrokerRecvMessage, then post. */
    method Fire(p: BrokerPacket)
      modifies this
      ensures brokerRecvMessageQue == old(brokerRecvMessageQue) + [p] && postedEvents == old(postedEvents) + 1
    {
      brokerRecvMessageQue := brokerRecvMessageQue + [p];
      postedEvents := postedEvents + 1;
    }

    /** One turn of the loop, and what it means for the cut. */
    method DeserializeNext(buffer: array<byte>, packet: nat, recvLength: int, ghost done: seq<BrokerPacket>)
      returns (t: Taken)
      requires 0 < recvLength <= buffer.Length - packet
      ensures Pending(done, buffer[..], packet, recvLength) == AfterTurn(done, buffer[..], packet, recvLength, t)
    {
      t := DeserializeAt(buffer, packet);
      assert buffer[..][packet..] == buffer[packet..];
      TurnOf(done, buffer[..], packet, recvLength, t);
    }

    method RecvAndFireEvent(buffer: array<byte>, received: int) returns (end: End)
      requires buffer.Length == SOCKET_MAXBUFFER_LENGTH && received <= buffer.Length
      modifies this
      ensures
        var cut := Split(buffer[..], received);
        && end == cut.end
        && brokerRecvMessageQue == old(brokerRecvMessageQue) + cut.packets
        && postedEvents == old(postedEvents) + |cut.packets|
    {
      var recvLength, packet := received, 0;
      ghost var b, que, posted := buffer[..], brokerRecvMessageQue, postedEvents;
      ghost var cut := Split(b, received);
      ghost var done: seq<BrokerPacket> := [];
      PendingAtFirst(b, received);
      while recvLength > 0
        invariant 0 <= packet && (recvLength > 0 ==> recvLength <= buffer.Length - packet)
        invariant brokerRecvMessageQue == que + done && postedEvents == posted + |done|
        invariant cut == Pending(done, b, packet, recvLength)
        decreases recvLength
      {
        var t := DeserializeNext(buffer, packet, recvLength, done);
        match t {
          case UnknownType => return Unknown(recvLength);
          case Overrun => return Outside;
          case Taken(p, packetLength) =>
            Fire(p);
            Regroup(que, done, p);
            done := done + [p];
            if packetLength == 0 {
              return Endless;
            }
            recvLength, packet := recvLength - packetLength, packet + packetLength;
        }
      }
      end := Consumed(recvLength);
    }
  }

  lemma Regroup(que: seq<BrokerPacket>, done: seq<BrokerPacket>, p: BrokerPacket)
    ensures que + done + [p] == que + (done + [p])
  {
  }

  /** The same cut, with packets taken earlier in front. */
  ghost function Before(done: seq<BrokerPacket>, cut: Cut): Cut {
    Cut(done + cut.packets, cut.end)
  }

  /** The whole cut, as seen from a turn of the loop. */
  ghost function Pending(done: seq<BrokerPacket>, b: seq<byte>, packet: nat, left: int): Cut
    requires left > 0 ==> left <= |b| - packet
  {
    if left > 0 then Before(done, Split(b[packet..], left)) else Cut(done, Consumed(left))
  }

  ghost function AfterTurn(done: seq<BrokerPacket>, b: seq<byte>, packet: nat, left: int, t: Taken): Cut
    requires 0 < left <= |b| - packet
  {
    match t
    case UnknownType => Cut(done, Unknown(left))
    case Overrun => Cut(done, Outside)
    case Taken(p, length) =>
      if length == 0 then Cut(done + [p], Endless)
      else Pending(done + [p], b, packet + length, left - length)
  }

  lemma TurnOf(done: seq<BrokerPacket>, b: seq<byte>, packet: nat, left: int, t: Taken)
    requires 0 < left <= |b| - packet && t == Take(b[packet..])
    ensures Pending(done, b, packet, left) == AfterTurn(done, b, packet, left, t)
  {
    var at := b[packet..];
    SplitNext(at, left, done, t);
    if t.Taken? && t.length < left {
      SliceOfSlice(b, packet, t.length);
      assert at[t.length..] == b[packet + t.length..];
    }
  }

  lemma SliceOfSlice(b: seq<byte>, i: nat, j: nat)
    requires i + j <= |b|
    ensures b[i..][j..] == b[i + j..]
  {
  }

  lemma PendingAtFirst(b: seq<byte>, received: int)
    requires received <= |b|
    ensures Pending([], b, 0, received) == Split(b, received)
  {
    if received > 0 {
      var cut := Split(b, received);
      assert b[0..] == b && [] + cut.packets == cut.packets;
    }
  }

  lemma SplitNext(at: seq<byte>, left: int, done: seq<BrokerPacket>, t: Taken)
    requires 0 < left <= |at| && t == Take(at)
    ensures Before(done, Split(at, left)) ==
      match t
      case UnknownType => Cut(done, Unknown(left))
      case Overrun => Cut(done, Outside)
      case Taken(p, length) =>
        if length == 0 then Cut(done + [p], Endless)
        else if length >= left then Cut(done + [p], Consumed(left - length))
        else Before(done + [p], Split(at[length..], left - length))
  {
    if t.Taken? && 0 < t.length < left {
      var rest := Split(at[t.length..], left - t.length);
      assert done + ([t.packet] + rest.packets) == done + [t.packet] + rest.packets;
    }
  }

  lemma {:induction false} DigitsUsed(ds: seq<byte>, i: nat)
    requires i <= |ds| && forall k | 0 <= k < i :: ds[k] >= 128
    ensures i < |ds| && ds[i] < 128 ==> Terminated(ds) && UsedDigits(ds) == i + 1
    ensures i == |ds| ==> !Terminated(ds)
    ensures i == 4 && Terminated(ds) ==> UsedDigits(ds) > 4
    decreases i
  {
    if i > 0 {
      assert forall k | 0 <= k < i - 1 :: ds[1..][k] == ds[k + 1];
      DigitsUsed(ds[1..], i - 1);
      if i == 4 && Terminated(ds) {
        var n := UsedDigits(ds);
        assert ds[n - 1] < 128;
      }
    }
  }

  // ---------- Chunks of complete packets ----------

  /** The packets as section 3 of MQTT V3.1 lays them out, PUBLISH as the gateway does. */
  function EncodePacket(p: BrokerPacket): seq<byte> {
    match p
    case PubAck(id) => [0x40, 2] + PutUint16(id)
    case PublishPacket(q) => SerializePublish(q)
    case SubAck(id, qos) => [0x90, 3] + PutUint16(id) + [qos]
    case PingResp => [0xd0, 0]
    case UnsubAck(id) => [0xb0, 2] + PutUint16(id)
    case ConnAck(rc) => [0x20, 2, 0, rc]
  }

  function EncodeAll(ps: seq<BrokerPacket>): seq<byte> {
    if ps == [] then [] else EncodePacket(ps[0]) + EncodeAll(ps[1..])
  }

  predicate WellFormed(p: BrokerPacket) {
    p.PublishPacket? ==> p.p.flags < 16 && |p.p.payload| <= 255
  }

  lemma TakeAck(p: BrokerPacket, rest: seq<byte>)
    requires !p.PublishPacket?
    ensures Take(EncodePacket(p) + rest) == Taken(p, |EncodePacket(p)|)
  {
    var at := EncodePacket(p) + rest;
    assert at[1] < 128;
    assert at[1..][0] == at[1];
    assert UsedDigits(at[1..]) == 1 && Decode(at[1..], 1, 0) == at[1];
  }

  lemma PublishSize(p: Publish)
    requires |PublishBody(p)| < 65532
    ensures SerializePublish(p) == [TYPE_PUBLISH + p.flags % 16] + Encode(|PublishBody(p)|) + PublishBody(p)
    ensures |SerializePublish(p)| == 1 + |Encode(|PublishBody(p)|)| + |PublishBody(p)| < 65536
  {
    EncodeSize(|PublishBody(p)|);
    assert |PublishBody(p)| % 65536 == |PublishBody(p)|;
  }

  /** The payload length is kept in 8 bits. */
  function PayloadCut(p: Publish): Publish {
    p.(payload := p.payload[..|p.payload| % 256])
  }

  lemma TakePublish(p: Publish, rest: seq<byte>)
    requires p.flags < 16 && |PublishBody(p)| < 65532
    ensures |SerializePublish(p)| < 65536
    ensures Take(SerializePublish(p) + rest) == Taken(PublishPacket(PayloadCut(p)), |SerializePublish(p)|)
  {
    PublishSize(p);
    TakePacket(p, TYPE_PUBLISH + p.flags % 16, Encode(|PublishBody(p)|), PublishBody(p), rest);
  }

  lemma TakePacket(p: Publish, first: byte, ds: seq<byte>, body: seq<byte>, rest: seq<byte>)
    requires p.flags < 16 && first == TYPE_PUBLISH + p.flags % 16
    requires body == PublishBody(p) && |body| < 65532 && ds == Encode(|body|)
    ensures 1 + |ds| + |body| < 65536
    ensures Take([first] + ds + body + rest) == Taken(PublishPacket(PayloadCut(p)), 1 + |ds| + |body|)
  {
    var at := [first] + ds + body + rest;
    FirstByte(p.flags);
    TakeFraming(first, ds, body, rest, at);
    PublishFields(p, at, |ds|, rest);
  }

  /** The fixed header is read, and leads to the deserializer of its type. */
  lemma TakeFraming(first: byte, ds: seq<byte>, body: seq<byte>, rest: seq<byte>, at: seq<byte>)
    requires Handled(first) && |body| < 65532 && ds == Encode(|body|) && at == [first] + ds + body + rest
    ensures 1 <= |ds| <= 3 && |at| == 1 + |ds| + |body| + |rest|
    ensures at[0] == first && at[1 + |ds|..] == body + rest
    ensures Take(at) == Deserialize(at, |ds|, |body|)
  {
    RemainingLengthRoundTrip(|body|, body + rest);
    PacketTail(first, ds, body, rest);
  }

  lemma FirstByte(flags: byte)
    requires flags < 16
    ensures flags % 16 == flags && Handled(TYPE_PUBLISH + flags)
  {
    SameSixteen(3, flags);
  }

  lemma SameSixteen(q: int, r: int)
    requires 0 <= r < 16
    ensures (16 * q + r) / 16 == q
  {
  }

  lemma PacketTail(first: byte, ds: seq<byte>, body: seq<byte>, rest: seq<byte>)
    ensures
      var at := [first] + ds + body + rest;
      at[0] == first && at[1..] == ds + (body + rest) && at[1 + |ds|..] == body + rest
  {
    var at := [first] + ds + body + rest;
    assert at == [first] + (ds + (body + rest));
    assert (ds + (body + rest))[|ds|..] == body + rest;
  }

  lemma PublishFields(p: Publish, at: seq<byte>, n: nat, rest: seq<byte>)
    requires p.flags < 16 && |PublishBody(p)| < 65532 && 1 <= n <= 3
    requires |at| == 1 + n + |PublishBody(p)| + |rest| && at[1 + n..] == PublishBody(p) + rest
    requires at[0] == TYPE_PUBLISH + p.flags
    ensures Deserialize(at, n, |PublishBody(p)|) == Taken(PublishPacket(PayloadCut(p)), 1 + n + |PublishBody(p)|)
  {
    var body := PublishBody(p);
    var t := |p.topic|;
    assert at[3 + n..][..t] == at[3 + n..3 + n + t];
    PublishParts(p, at[1 + n..], rest);
    FieldsByParts(p, at, n, |body|, 1 + n + |body|);
  }

  lemma PublishParts(p: Publish, tail: seq<byte>, rest: seq<byte>)
    requires |PublishBody(p)| < 65532 && tail == PublishBody(p) + rest
    ensures
      var t, len := |p.topic|, |p.payload| % 256;
      && tail[0] == t / 256 && tail[1] == t % 256 && tail[2..2 + t] == p.topic
      && tail[2 + t] == p.messageId / 256 && tail[3 + t] == p.messageId % 256
      && tail[4 + t..4 + t + len] == p.payload[..len]
  {
    var t := |p.topic|;
    var after := PutUint16(p.messageId) + p.payload + rest;
    assert tail == [t / 256, t % 256] + p.topic + after;
    assert tail[2 + t..] == after;
    assert after[2..] == p.payload + rest;
  }

  lemma FieldsByParts(p: Publish, at: seq<byte>, n: nat, rl: uint16, length: uint16)
    requires rl == |PublishBody(p)| < 65532 && |at| >= 1 + n + rl && at[0] == TYPE_PUBLISH + p.flags && p.flags < 16
    requires
      var t, len, tail := |p.topic|, |p.payload| % 256, at[1 + n..];
      && tail[0] == t / 256 && tail[1] == t % 256 && tail[2..2 + t] == p.topic
      && tail[2 + t] == p.messageId / 256 && tail[3 + t] == p.messageId % 256
      && tail[4 + t..4 + t + len] == p.payload[..len]
    ensures DeserializePublish(at, n, rl, length) == Taken(PublishPacket(PayloadCut(p)), length)
  {
    var t, tail := |p.topic|, at[1 + n..];
    var len := |p.payload| % 256;
    assert at[1 + n] == tail[0] && at[2 + n] == tail[1];
    assert at[3 + n + t] == tail[2 + t] && at[4 + n + t] == tail[3 + t];
    assert at[3 + n..3 + n + t] == tail[2..2 + t];
    assert at[5 + n + t..5 + n + t + len] == tail[4 + t..4 + t + len];
  }

  /** A PUBLISH is decoded as it was sent exactly when its payload has at most 255 bytes. */
  lemma PublishDecodedIff(p: Publish, rest: seq<byte>)
    requires p.flags < 16 && |PublishBody(p)| < 65532
    ensures |SerializePublish(p)| < 65536
    ensures Take(SerializePublish(p) + rest) == Taken(PublishPacket(p), |SerializePublish(p)|) <==> |p.payload| <= 255
  {
    TakePublish(p, rest);
    PayloadKeptIff(p);
  }

  lemma PayloadKeptIff(p: Publish)
    ensures PayloadCut(p) == p <==> |p.payload| <= 255
  {
    if |p.payload| <= 255 {
      assert PayloadCut(p).payload == p.payload;
    } else {
      assert |PayloadCut(p).payload| < 256;
    }
  }

  // ---------- Any length field ----------

  /** Only these six types are known, whatever follows the first byte. */
  lemma UnknownIff(at: seq<byte>)
    requires at != []
    ensures Take(at).UnknownType? <==> at[0] / 16 !in {2, 3, 4, 9, 11, 13}
  {
    SixteenFold(at[0]);
  }

  lemma SixteenFold(b: byte)
    ensures forall q: int :: (b / 16) * 16 == 16 * q <==> b / 16 == q
  {
  }

  /** n bytes of Remaining Length, minimal or not, that declare v bytes behind them. */
  ghost predicate Declares(at: seq<byte>, n: nat, v: nat) {
    at != [] && Terminated(at[1..]) && UsedDigits(at[1..]) == n && Value(at[1..]) == v
  }

  /** Up to four of them are read, five are not. */
  lemma TakeDeclared(at: seq<byte>, n: nat, v: nat)
    requires Declares(at, n, v) && Handled(at[0])
    ensures Take(at) == if n <= 4 then Deserialize(at, n, v % 65536) else Overrun
  {
    DecodeIsValueModulo(at[1..], 1, 0);
    FromOneAndZero(v);
  }

  function AckOf(kind: int, hi: byte, lo: byte): BrokerPacket {
    if kind == 4 then PubAck(GetUint16(hi, lo)) else if kind == 11 then UnsubAck(GetUint16(hi, lo)) else ConnAck(lo)
  }

  lemma AckIsIff(kind: int, hi: byte, lo: byte, hi': byte, lo': byte)
    requires kind in {2, 4, 11}
    ensures AckOf(kind, hi, lo) == AckOf(kind, hi', lo') <==> lo == lo' && (kind == 2 || hi == hi')
  {
  }

  lemma DeserializeAck(at: seq<byte>, n: nat, v: nat)
    requires |at| >= 4 && n <= 4 && at[0] / 16 in {2, 4, 11}
    ensures Deserialize(at, n, v % 65536) == Taken(AckOf(at[0] / 16, at[2], at[3]), (1 + n + v) % 65536)
  {
    SixteenFold(at[0]);
    AddModulo(1 + n, v);
  }

  /** PUBACK, UNSUBACK and CONNACK are read from bytes 2 and 3 of the packet, so they are read
      right behind a length field of one byte; behind a longer one, exactly if the bytes there
      happen to be the same. */
  lemma AckReadIff(at: seq<byte>, n: nat, v: nat)
    requires Declares(at, n, v) && n <= 4 && at[0] / 16 in {2, 4, 11} && |at| >= 3 + n
    ensures
      var t, hi, lo := Take(at), at[1 + n], at[2 + n];
      && t.Taken? && t.length == (1 + n + v) % 65536
      && (t.packet == AckOf(at[0] / 16, hi, lo) <==> at[3] == lo && (at[0] / 16 == 2 || at[2] == hi))
      && (n == 1 ==> t.packet == AckOf(at[0] / 16, hi, lo))
  {
    TakeDeclared(at, n, v);
    DeserializeAck(at, n, v);
    AckIsIff(at[0] / 16, at[2], at[3], at[1 + n], at[2 + n]);
  }

  /** A SUBACK is read right behind any length field. */
  lemma SubackOfAnyLength(at: seq<byte>, n: nat, v: nat)
    requires Declares(at, n, v) && n <= 4 && at[0] / 16 == 9 && |at| >= 4 + n
    ensures Take(at) == Taken(SubAck(GetUint16(at[1 + n], at[2 + n]), at[3 + n]), (1 + n + v) % 65536)
  {
    TakeDeclared(at, n, v);
    SixteenFold(at[0]);
    AddModulo(1 + n, v);
  }

  /** The variable header and payload of a PUBLISH behind n bytes of length. */
  ghost predicate BodyAt(at: seq<byte>, n: nat, topic: Str, id: uint16, data: seq<byte>) {
    var idAt := 3 + n + |topic|;
    && |topic| < 65536 && |at| == idAt + 2 + |data| && at[3 + n..idAt] == topic && at[idAt + 2..] == data
    && GetUint16(at[1 + n], at[2 + n]) == |topic| && GetUint16(at[idAt], at[idAt + 1]) == id
  }

  lemma LengthModulo(v: nat, t: nat)
    ensures (v % 65536 - t - 4) % 256 == (v - t - 4) % 256
  {
    var q := v / 65536;
    assert v - t - 4 == (v % 65536 - t - 4) + 256 * (256 * q);
  }

  lemma DeserializeBody(at: seq<byte>, n: nat, rl: uint16, len: byte, topic: Str, id: uint16, data: seq<byte>)
    requires n <= 4 && at != [] && at[0] / 16 == 3 && BodyAt(at, n, topic, id, data) && len == (rl - |topic| - 4) % 256
    ensures Deserialize(at, n, rl) ==
      if |data| < len then Overrun
      else Taken(PublishPacket(Publish(at[0] % 16, topic, id, data[..len])), (1 + n + rl) % 65536)
  {
    SixteenFold(at[0]);
    var idAt := 3 + n + |topic|;
    if len <= |data| {
      assert at[idAt + 2..idAt + 2 + len] == data[..len];
    }
  }

  /** So is a PUBLISH: flags, topic and message id, and as payload as many bytes as the declared
      length leaves for it, modulo 256. */
  lemma PublishOfAnyLength(at: seq<byte>, n: nat, v: nat, topic: Str, id: uint16, data: seq<byte>)
    requires Declares(at, n, v) && n <= 4 && at[0] / 16 == 3 && BodyAt(at, n, topic, id, data)
    ensures
      var len := (v - |topic| - 4) % 256;
      Take(at) ==
        if |data| < len then Overrun
        else Taken(PublishPacket(Publish(at[0] % 16, topic, id, data[..len])), (1 + n + v) % 65536)
  {
    TakeDeclared(at, n, v);
    LengthModulo(v, |topic|);
    AddModulo(1 + n, v);
    DeserializeBody(at, n, v % 65536, (v - |topic| - 4) % 256, topic, id, data);
  }

  lemma TakeOne(p: BrokerPacket, rest: seq<byte>)
    requires WellFormed(p) && |EncodePacket(p)| < 65532
    ensures Take(EncodePacket(p) + rest) == Taken(p, |EncodePacket(p)|)
  {
    if p.PublishPacket? {
      PublishDecodedIff(p.p, rest);
    } else {
      TakeAck(p, rest);
    }
  }

  /** TCP chunk splitting: a buffer that starts with any complete packets, whatever comes after
      them in it, is cut into exactly those packets, in order, with nothing left. */
  lemma {:induction false} ChunkSplitsExactly(ps: seq<BrokerPacket>, pad: seq<byte>)
    requires forall i | 0 <= i < |ps| :: WellFormed(ps[i])
    requires |EncodeAll(ps)| <= SOCKET_MAXBUFFER_LENGTH
    ensures Split(EncodeAll(ps) + pad, |EncodeAll(ps)|) == Cut(ps, Consumed(0))
    decreases |ps|
  {
    if ps != [] {
      var n := TakeFirst(ps, pad);
      EncodeAllNonEmpty(ps[1..]);
      ChunkSplitsExactly(ps[1..], pad);
      OnePacketMore(EncodeAll(ps) + pad, |EncodeAll(ps)|, ps[0], n, EncodeAll(ps[1..]) + pad, ps[1..]);
      assert ps == [ps[0]] + ps[1..];
    }
  }

  lemma TakeFirst(ps: seq<BrokerPacket>, pad: seq<byte>) returns (n: nat)
    requires ps != [] && WellFormed(ps[0]) && |EncodeAll(ps)| < 65532
    ensures 0 < n && n + |EncodeAll(ps[1..])| == |EncodeAll(ps)|
    ensures Take(EncodeAll(ps) + pad) == Taken(ps[0], n) && (EncodeAll(ps) + pad)[n..] == EncodeAll(ps[1..]) + pad
  {
    var first, others := EncodePacket(ps[0]), EncodeAll(ps[1..]);
    n := |first|;
    SplitHead(ps[0], first, others, EncodeAll(ps), pad);
  }

  lemma OnePacketMore(at: seq<byte>, left: int, p: BrokerPacket, length: uint16, rest: seq<byte>, ps: seq<BrokerPacket>)
    requires 0 < length <= left <= |at| && Take(at) == Taken(p, length) && at[length..] == rest
    requires Split(rest, left - length) == Cut(ps, Consumed(0)) && (length == left ==> ps == [])
    ensures Split(at, left) == Cut([p] + ps, Consumed(0))
  {
    SplitTaken(at, left, p, length, rest);
  }

  lemma SplitHead(p: BrokerPacket, first: seq<byte>, others: seq<byte>, all: seq<byte>, pad: seq<byte>)
    requires WellFormed(p) && first == EncodePacket(p) && |first| < 65532 && all == first + others
    ensures Take(all + pad) == Taken(p, |first|) && (all + pad)[|first|..] == others + pad && first != []
  {
    assert all + pad == first + (others + pad);
    TakeWhole(p, first, all + pad, others + pad);
  }

  /** A complete packet at the front is taken, whatever follows. */
  lemma TakeWhole(p: BrokerPacket, first: seq<byte>, at: seq<byte>, rest: seq<byte>)
    requires WellFormed(p) && first == EncodePacket(p) && |first| < 65532 && at == first + rest
    ensures Take(at) == Taken(p, |first|) && at[|first|..] == rest
  {
    TakeOne(p, rest);
  }

  lemma SplitTaken(at: seq<byte>, left: int, p: BrokerPacket, length: uint16, rest: seq<byte>)
    requires 0 < length <= left <= |at| && Take(at) == Taken(p, length) && at[length..] == rest
    ensures Split(at, left) ==
      if length == left then Cut([p], Consumed(0)) else Before([p], Split(rest, left - length))
  {
  }

  lemma EncodeAllNonEmpty(ps: seq<BrokerPacket>)
    ensures EncodeAll(ps) == [] ==> ps == []
  {
    if ps != [] {
      assert |EncodePacket(ps[0])| >= 2;
    }
  }

  // ---------- Does the loop end? ----------

  /** What a packet declares as its own length: first byte, length field, Remaining Length. */
  function Total(at: seq<byte>): nat
    requires at != [] && Terminated(at[1..])
  {
    1 + UsedDigits(at[1..]) + Value(at[1..])
  }

  /** For every packet that is taken, of any type: `packet` moves on by the declared total, cut to
      16 bits. */
  lemma TakenLength(at: seq<byte>)
    requires at != [] && Take(at).Taken?
    ensures Terminated(at[1..]) && Take(at).length == Total(at) % 65536
  {
    var ds := at[1..];
    DecodeIsValueModulo(ds, 1, 0);
    FromOneAndZero(Value(ds));
    AddModulo(1 + UsedDigits(ds), Value(ds));
  }

  /** Following the declared totals, each cut to 16 bits, the loop comes to a packet at `pos` whose
      own total is 0 modulo 65536. */
  ghost predicate StallsAt(at: seq<byte>, left: int, pos: nat)
    requires left <= |at|
    decreases left
  {
    && left > 0 && Take(at).Taken? && Terminated(at[1..])
    && var step := Total(at) % 65536;
       if pos == 0 then step == 0
       else 0 < step < left && step <= pos && StallsAt(at[step..], left - step, pos - step)
  }

  ghost predicate Stalls(at: seq<byte>, left: int)
    requires left <= |at|
  {
    exists pos: nat :: StallsAt(at, left, pos)
  }

  /** For any buffer and any number of received bytes: the loop turns without end if and only if it
      comes to a packet, of whatever type, that declares a total length of 0 modulo 65536. */
  lemma EndlessIff(at: seq<byte>, left: int)
    requires left <= |at|
    ensures Split(at, left).end == Endless <==> Stalls(at, left)
  {
    if Stalls(at, left) {
      SomeStallIsEndless(at, left);
    } else if Split(at, left).end == Endless {
      EndlessHasStall(at, left);
    }
  }

  lemma SomeStallIsEndless(at: seq<byte>, left: int)
    requires left <= |at| && Stalls(at, left)
    ensures Split(at, left).end == Endless
  {
    var pos: nat :| StallsAt(at, left, pos);
    StallIsEndless(at, left, pos);
  }

  lemma EndlessHasStall(at: seq<byte>, left: int)
    requires left <= |at| && Split(at, left).end == Endless
    ensures Stalls(at, left)
  {
    var pos := EndlessStalls(at, left);
  }

  lemma {:induction false} EndlessStalls(at: seq<byte>, left: int) returns (pos: nat)
    requires left <= |at| && Split(at, left).end == Endless
    ensures StallsAt(at, left, pos)
    decreases left
  {
    TakenLength(at);
    var step := Take(at).length;
    pos := 0;
    if step > 0 {
      pos := EndlessStalls(at[step..], left - step);
      pos := pos + step;
    }
  }

  lemma {:induction false} StallIsEndless(at: seq<byte>, left: int, pos: nat)
    requires left <= |at| && StallsAt(at, left, pos)
    ensures Split(at, left).end == Endless
    decreases left
  {
    TakenLength(at);
    if pos > 0 {
      var step := Take(at).length;
      StallIsEndless(at[step..], left - step, pos - step);
    }
  }

  // ---------- Packets over several reads ----------

  predicate Zeros(z: seq<byte>) {
    forall i | 0 <= i < |z| :: z[i] == 0
  }

  function Padding(chunk: seq<byte>): (z: seq<byte>)
    requires |chunk| <= SOCKET_MAXBUFFER_LENGTH
    ensures |chunk + z| == SOCKET_MAXBUFFER_LENGTH && Zeros(z)
  {
    seq(SOCKET_MAXBUFFER_LENGTH - |chunk|, _ => 0)
  }

  /** One read into the zeroed buffer. */
  function ReceivedIn(chunk: seq<byte>): Cut
    requires |chunk| <= SOCKET_MAXBUFFER_LENGTH
  {
    Split(chunk + Padding(chunk), |chunk|)
  }

  predicate AllFit(chunks: seq<seq<byte>>) {
    forall i | 0 <= i < |chunks| :: |chunks[i]| <= SOCKET_MAXBUFFER_LENGTH
  }

  function Received(chunks: seq<seq<byte>>): seq<Cut>
    requires AllFit(chunks)
  {
    if chunks == [] then [] else [ReceivedIn(chunks[0])] + Received(chunks[1..])
  }

  /** What the reads leave in the queue. */
  function Queued(cuts: seq<Cut>): seq<BrokerPacket> {
    if cuts == [] then [] else cuts[0].packets + Queued(cuts[1..])
  }

  /** Every read is used up exactly. */
  predicate InStep(cuts: seq<Cut>) {
    forall c | c in cuts :: c.end == Consumed(0)
  }

  function Flatten(chunks: seq<seq<byte>>): seq<byte> {
    if chunks == [] then [] else chunks[0] + Flatten(chunks[1..])
  }

  /** Every read holds whole packets. */
  ghost predicate Aligned(chunks: seq<seq<byte>>, ps: seq<BrokerPacket>) {
    if chunks == [] then ps == []
    else exists n: nat | n <= |ps| :: chunks[0] == EncodeAll(ps[..n]) && Aligned(chunks[1..], ps[n..])
  }

  predicate AllSendable(ps: seq<BrokerPacket>) {
    forall i | 0 <= i < |ps| :: WellFormed(ps[i]) && |EncodePacket(ps[i])| < 65532
  }

  /** The loop keeps nothing from one read to the next. Whatever packets the broker sends and
      however TCP cuts them into reads: every read is used up exactly if and only if every read ends
      where a packet ends; and then the packets are queued as they were sent. */
  lemma ReadsMustBeAlignedIff(chunks: seq<seq<byte>>, ps: seq<BrokerPacket>)
    requires AllFit(chunks) && AllSendable(ps) && Flatten(chunks) == EncodeAll(ps)
    ensures InStep(Received(chunks)) <==> Aligned(chunks, ps)
    ensures Aligned(chunks, ps) ==> Queued(Received(chunks)) == ps
  {
    if InStep(Received(chunks)) {
      InStepAligned(chunks, ps);
    }
    if Aligned(chunks, ps) {
      AlignedInStep(chunks, ps);
    }
  }

  lemma {:induction false} InStepAligned(chunks: seq<seq<byte>>, ps: seq<BrokerPacket>)
    requires AllFit(chunks) && AllSendable(ps) && Flatten(chunks) == EncodeAll(ps) && InStep(Received(chunks))
    ensures Aligned(chunks, ps)
    decreases |chunks|
  {
    if chunks == [] {
      EncodeAllNonEmpty(ps);
    } else {
      var chunk, more := chunks[0], chunks[1..];
      InStepFirst(ReceivedIn(chunk), Received(more));
      var n := CutAligned(ps, chunk, Flatten(more), Padding(chunk));
      InStepAligned(more, ps[n..]);
    }
  }

  lemma InStepFirst(first: Cut, cuts: seq<Cut>)
    ensures InStep([first] + cuts) <==> first.end == Consumed(0) && InStep(cuts)
  {
    assert first in [first] + cuts;
    assert forall c | c in cuts :: c in [first] + cuts;
  }

  lemma {:induction false} AlignedInStep(chunks: seq<seq<byte>>, ps: seq<BrokerPacket>)
    requires AllFit(chunks) && AllSendable(ps) && Flatten(chunks) == EncodeAll(ps) && Aligned(chunks, ps)
    ensures InStep(Received(chunks)) && Queued(Received(chunks)) == ps
    decreases |chunks|
  {
    if chunks != [] {
      var chunk, more := chunks[0], chunks[1..];
      var n: nat :| n <= |ps| && chunk == EncodeAll(ps[..n]) && Aligned(more, ps[n..]);
      AfterWhole(ps, n, chunk, Flatten(more));
      AlignedInStep(more, ps[n..]);
      ReceivedWhole(ps[..n], chunk);
      InStepNext(Received(more), ps, n);
    }
  }

  lemma InStepNext(cuts: seq<Cut>, ps: seq<BrokerPacket>, n: nat)
    requires n <= |ps| && InStep(cuts) && Queued(cuts) == ps[n..]
    ensures
      var all := [Cut(ps[..n], Consumed(0))] + cuts;
      InStep(all) && Queued(all) == ps
  {
    InStepFirst(Cut(ps[..n], Consumed(0)), cuts);
    assert ps[..n] + ps[n..] == ps;
  }

  lemma AfterWhole(ps: seq<BrokerPacket>, n: nat, chunk: seq<byte>, more: seq<byte>)
    requires n <= |ps| && chunk == EncodeAll(ps[..n]) && chunk + more == EncodeAll(ps)
    ensures more == EncodeAll(ps[n..])
  {
    EncodeAllAppend(ps[..n], ps[n..]);
    assert ps[..n] + ps[n..] == ps;
    SamePrefix(chunk, more, EncodeAll(ps[n..]));
  }

  lemma ReceivedWhole(ps: seq<BrokerPacket>, chunk: seq<byte>)
    requires AllSendable(ps) && |chunk| <= SOCKET_MAXBUFFER_LENGTH && chunk == EncodeAll(ps)
    ensures ReceivedIn(chunk) == Cut(ps, Consumed(0))
  {
    ChunkSplitsExactly(ps, Padding(chunk));
  }

  lemma SamePrefix(a: seq<byte>, b: seq<byte>, c: seq<byte>)
    requires a + b == a + c
    ensures b == c
  {
    assert b == (a + b)[|a|..] == (a + c)[|a|..] == c;
  }

  lemma {:induction false} EncodeAllAppend(a: seq<BrokerPacket>, b: seq<BrokerPacket>)
    ensures EncodeAll(a + b) == EncodeAll(a) + EncodeAll(b)
  {
    if a == [] {
      assert a + b == b;
    } else {
      assert (a + b)[1..] == a[1..] + b;
      EncodeAllAppend(a[1..], b);
      var first, others, more := EncodePacket(a[0]), EncodeAll(a[1..]), EncodeAll(b);
      assert (first + others) + more == first + (others + more);
    }
  }

  /** A read that is used up exactly ends where a packet ends. */
  lemma {:induction false} CutAligned(ps: seq<BrokerPacket>, chunk: seq<byte>, more: seq<byte>, pad: seq<byte>)
    returns (n: nat)
    requires AllSendable(ps) && chunk + more == EncodeAll(ps) && Zeros(pad)
    requires Split(chunk + pad, |chunk|).end == Consumed(0)
    ensures n <= |ps| && chunk == EncodeAll(ps[..n]) && more == EncodeAll(ps[n..])
    decreases |ps|
  {
    if chunk == [] {
      n := 0;
      assert ps[0..] == ps;
    } else {
      var first := EncodePacket(ps[0]);
      if |first| <= |chunk| {
        var tail := chunk[|first|..];
        FirstWhole(ps, first, chunk, more, pad, tail);
        StepOver(chunk + pad, |chunk|, ps[0], |first|, tail + pad);
        n := CutAligned(ps[1..], tail, more, pad);
        n := n + 1;
        OneMore(ps, n);
      } else {
        PartOfFirst(first, EncodeAll(ps[1..]), chunk, more);
        PartLeavesStep(ps[0], first, chunk, pad);
        assert false;
      }
    }
  }

  lemma OneMore(ps: seq<BrokerPacket>, n: nat)
    requires 0 < n <= |ps|
    ensures EncodeAll(ps[..n]) == EncodePacket(ps[0]) + EncodeAll(ps[1..][..n - 1]) && ps[n..] == ps[1..][n - 1..]
  {
    assert ps[..n][1..] == ps[1..][..n - 1];
  }

  /** The first packet is whole: it is taken, and the rest of the read comes next. */
  lemma FirstWhole(
    ps: seq<BrokerPacket>, first: seq<byte>, chunk: seq<byte>, more: seq<byte>, pad: seq<byte>, tail: seq<byte>)
    requires AllSendable(ps) && chunk + more == EncodeAll(ps) && ps != [] && first == EncodePacket(ps[0])
    requires |first| <= |chunk| && tail == chunk[|first|..]
    ensures chunk == first + tail && tail + more == EncodeAll(ps[1..])
    ensures Take(chunk + pad) == Taken(ps[0], |first|) && (chunk + pad)[|first|..] == tail + pad
  {
    WholeFirst(first, EncodeAll(ps[1..]), chunk, more, tail);
    assert chunk + pad == first + (tail + pad);
    TakeWhole(ps[0], first, chunk + pad, tail + pad);
  }

  lemma StepOver(at: seq<byte>, left: int, p: BrokerPacket, length: uint16, rest: seq<byte>)
    requires 0 < length <= left <= |at| && Take(at) == Taken(p, length) && at[length..] == rest
    ensures Split(at, left).end == Split(rest, left - length).end
  {
    SplitTaken(at, left, p, length, rest);
  }

  lemma WholeFirst(first: seq<byte>, others: seq<byte>, chunk: seq<byte>, more: seq<byte>, tail: seq<byte>)
    requires chunk + more == first + others && |first| <= |chunk| && tail == chunk[|first|..]
    ensures chunk == first + tail && tail + more == others
  {
    assert chunk[..|first|] == (chunk + more)[..|first|] == first;
    assert (chunk + more)[|first|..] == tail + more;
    assert (first + others)[|first|..] == others;
  }

  lemma PartOfFirst(first: seq<byte>, others: seq<byte>, chunk: seq<byte>, more: seq<byte>)
    requires chunk + more == first + others && |chunk| < |first|
    ensures chunk == first[..|chunk|]
  {
    assert chunk == (chunk + more)[..|chunk|] == (first + others)[..|chunk|];
  }

  /** A packet cut short is never used up exactly. */
  lemma PartLeavesStep(p: BrokerPacket, whole: seq<byte>, part: seq<byte>, pad: seq<byte>)
    requires whole == EncodePacket(p) && |whole| < 65532 && 0 < |part| < |whole| && part == whole[..|part|] && Zeros(pad)
    ensures Split(part + pad, |part|).end != Consumed(0)
  {
    PacketShape(p);
    PartEnds(FirstOf(p), Encode(|BodyOf(p)|), BodyOf(p), part, pad, part + pad);
  }

  lemma PartEnds(first: byte, ds: seq<byte>, body: seq<byte>, part: seq<byte>, pad: seq<byte>, at: seq<byte>)
    requires |body| < 65532 && ds == Encode(|body|) && Zeros(pad) && at == part + pad
    requires 0 < |part| < 1 + |ds| + |body| < 65532 && part == ([first] + ds + body)[..|part|]
    ensures Split(at, |part|).end != Consumed(0)
  {
    if Terminated(at[1..]) {
      if |part| > |ds| {
        PartWithField(first, ds, body, part, pad, at);
      } else {
        EncodedField(|body|);
        PartOfField(first, ds, body, part, pad, at);
      }
    }
    EndsBeyond(at, |part|);
  }

  lemma EndsBeyond(at: seq<byte>, left: int)
    requires 0 < left <= |at| && (Terminated(at[1..]) ==> left < Total(at) < 65536)
    ensures Split(at, left).end != Consumed(0)
  {
    var t := Take(at);
    if t.Taken? {
      TakenLength(at);
      SmallTotal(Total(at));
      StepBeyond(at, left, t.packet, t.length);
    }
  }

  lemma SmallTotal(n: nat)
    requires n < 65536
    ensures n % 65536 == n
  {
  }

  lemma StepBeyond(at: seq<byte>, left: int, p: BrokerPacket, length: uint16)
    requires 0 < left <= |at| && left < length && Take(at) == Taken(p, length)
    ensures Split(at, left).end == Consumed(left - length)
  {
  }

  /** It declares more than was read. */
  lemma PartWithField(first: byte, ds: seq<byte>, body: seq<byte>, part: seq<byte>, pad: seq<byte>, at: seq<byte>)
    requires |body| < 65532 && ds == Encode(|body|) && at == part + pad
    requires |ds| < |part| < 1 + |ds| + |body| < 65532 && part == ([first] + ds + body)[..|part|]
    ensures Terminated(at[1..]) && |part| < Total(at) < 65536
  {
    var got := body[..|part| - 1 - |ds|];
    assert part == [first] + (ds + got);
    assert at[1..] == ds + (got + pad);
    ValueOfEncode(|body|, got + pad);
  }

  lemma EncodedField(len: uint16)
    ensures |Encode(len)| <= 3 && Terminated(Encode(len)) && UsedDigits(Encode(len)) == |Encode(len)|
  {
    EncodeSize(len);
    ValueOfEncode(len, []);
    assert Encode(len) + [] == Encode(len);
  }

  /** And so it does when its length field was cut too. */
  lemma PartOfField(first: byte, ds: seq<byte>, body: seq<byte>, part: seq<byte>, pad: seq<byte>, at: seq<byte>)
    requires Terminated(ds) && UsedDigits(ds) == |ds| <= 3 && Zeros(pad)
    requires 0 < |part| <= |ds| && part == ([first] + ds + body)[..|part|]
    requires at == part + pad && Terminated(at[1..])
    ensures |part| < Total(at) < 65536
  {
    FieldCut(first, ds, body, |part|);
    assert at[1..] == ds[..|part| - 1] + pad;
    CutField(ds, |part| - 1, pad, at[1..]);
  }

  lemma FieldCut(first: byte, ds: seq<byte>, body: seq<byte>, n: nat)
    requires 0 < n <= |ds|
    ensures ([first] + ds + body)[..n] == [first] + ds[..n - 1]
  {
  }

  /** A length field that was cut goes on in the zeros of the buffer. */
  lemma CutField(ds: seq<byte>, m: nat, pad: seq<byte>, cut: seq<byte>)
    requires Terminated(ds) && UsedDigits(ds) == |ds| <= 3 && m < |ds| && cut == ds[..m] + pad && Terminated(cut)
    requires Zeros(pad)
    ensures UsedDigits(cut) == m + 1 && Value(cut) < 16384
  {
    assert forall k | 0 <= k < m :: cut[k] == ds[k];
    DigitsUsed(cut, m);
    assert pad != [] && cut[m] == 0;
    if m > 0 {
      assert Value(cut[1..]) < 128 by {
        if m > 1 {
          assert cut[1..][0] >= 128 && cut[1..][1..][0] == 0;
        }
      }
    }
  }

  function FirstOf(p: BrokerPacket): byte {
    EncodePacket(p)[0]
  }

  /** Everything after the fixed header. */
  function BodyOf(p: BrokerPacket): seq<byte> {
    match p
    case PubAck(id) => PutUint16(id)
    case PublishPacket(q) => PublishBody(q)
    case SubAck(id, qos) => PutUint16(id) + [qos]
    case PingResp => []
    case UnsubAck(id) => PutUint16(id)
    case ConnAck(rc) => [0, rc]
  }

  lemma PacketShape(p: BrokerPacket)
    requires |EncodePacket(p)| < 65532
    ensures |BodyOf(p)| < 65532
    ensures EncodePacket(p) == [FirstOf(p)] + Encode(|BodyOf(p)|) + BodyOf(p)
  {
    if p.PublishPacket? {
      assert |PublishBody(p.p)| % 65536 == |PublishBody(p.p)|;
    }
  }

  /** A PUBACK cut before its last byte is queued with that byte of its message id taken as 0, and
      the last byte makes no packet. */
  lemma CutPuback(high: byte, low: byte)
    requires !Handled(low)
    ensures Flatten([[TYPE_PUBACK, 2, high], [low]]) == EncodeAll([PubAck(GetUint16(high, low))])
    ensures Queued(Received([[TYPE_PUBACK, 2, high], [low]])) == [PubAck(GetUint16(high, 0))]
  {
    var first: seq<byte>, last: seq<byte> := [TYPE_PUBACK, 2, high], [low];
    assert PutUint16(GetUint16(high, low)) == [high, low];
    CutFlatten(first, last, PubAck(GetUint16(high, low)));
    ShortPuback(first + Padding(first), high);
    StrayByte(last + Padding(last));
    CutQueued(first, last);
  }

  lemma CutFlatten(first: seq<byte>, last: seq<byte>, p: BrokerPacket)
    requires first + last == EncodePacket(p)
    ensures Flatten([first, last]) == EncodeAll([p])
  {
    assert Flatten([first, last]) == first + Flatten([last]) == first + (last + Flatten([]));
    assert EncodeAll([p]) == EncodePacket(p) + EncodeAll([]);
  }

  lemma CutQueued(first: seq<byte>, last: seq<byte>)
    requires |first| <= SOCKET_MAXBUFFER_LENGTH && |last| <= SOCKET_MAXBUFFER_LENGTH
    ensures Queued(Received([first, last])) == ReceivedIn(first).packets + ReceivedIn(last).packets
  {
    var a, b := ReceivedIn(first), ReceivedIn(last);
    assert [first, last][1..] == [last];
    assert Received([last]) == [b] + Received([]) == [b];
    assert [a, b][1..] == [b] && Queued([b]) == b.packets + Queued([]);
  }

  lemma StrayByte(at: seq<byte>)
    requires at != [] && !Handled(at[0])
    ensures Split(at, 1) == Cut([], Unknown(1))
  {
  }

  lemma ShortPuback(at: seq<byte>, high: byte)
    requires |at| >= 4 && at[..4] == [TYPE_PUBACK, 2, high, 0]
    ensures Split(at, 3) == Cut([PubAck(GetUint16(high, 0))], Consumed(-1))
  {
    assert at[0] == at[..4][0] && at[1] == at[..4][1] && at[2] == at[..4][2] && at[3] == at[..4][3];
    TakePuback(at);
    SplitNext(at, 3, [], Take(at));
  }

  lemma TakePuback(at: seq<byte>)
    requires |at| >= 4 && at[0] == TYPE_PUBACK && at[1] == 2
    ensures Take(at) == Taken(PubAck(GetUint16(at[2], at[3])), 4)
  {
    assert at[1..][0] == 2;
  }
}
