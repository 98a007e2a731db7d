/** From a message for a client to the frame on the serial line: absorb, unicast, sendRequest. */
module Radio {
  import opened Bytes
  import opened XBeeFraming
  import opened Gateway
  import SnPublish

  const XB_TX_REQUEST: byte := 0x10

  /** Where a client is, as its node holds it. */
  datatype Address = Address(msb: nat, lsb: nat, addr16: uint16)

  /** The payload and its length are passed as they are; radius and option stay 0. */
  function Unicast(a: Address, bytes: seq<byte>): Request {
    Request(XB_TX_REQUEST, a.msb, a.lsb, a.addr16, 0, 0, bytes)
  }

  /** setTopicName, then both ids again. */
  function RegisterBytes(topicId: uint16, msgId: uint16, name: Str): seq<byte>
    requires |name| <= 249
  {
    [6 + |name|, TYPE_SN_REGISTER] + PutUint16(topicId) + PutUint16(msgId) + name
  }

  /** The bytes of a PUBLISH or REGISTER. After an overrun only length and type are sure. */
  predicate SentAs(m: SnMessage, bytes: seq<byte>) {
    match m
    case SnPublish(flags, topicId, msgId, data) =>
      && |data| <= 248
      && bytes == SnPublish.Encoding(SnPublish.Content(SnPublish.TYPE_SN_PUBLISH, flags, topicId, msgId, data))
    case SnRegister(topicId, msgId, name) => |name| <= 249 && bytes == RegisterBytes(topicId, msgId, name)
    case Overrun(msgType, length) => |bytes| == length && (length >= 2 ==> bytes[1] == msgType)
    case _ => false
  }

  /** The RF data of a transmit request: what follows id, addresses, radius and option. */
  function AirData(data: seq<byte>): seq<byte> {
    if |data| < 13 then [] else data[13..]
  }

  /** getFrameDataLength has 8 bits too: a message goes out whole, or not one byte of it. */
  lemma AllOrNothing(a: Address, bytes: seq<byte>)
    requires |bytes| <= 255
    ensures AirData(RequestFrame(Unicast(a, bytes)).data) == if |bytes| <= 242 then bytes else []
  {
    var r := Unicast(a, bytes);
    assert FrameData(r)[13..] == bytes;
    if |bytes| <= 242 {
      assert FrameDataLength(r) == |FrameData(r)|;
      assert FrameData(r)[..|FrameData(r)|] == FrameData(r);
    } else {
      assert FrameDataLength(r) == |bytes| - 243;
    }
  }

  /** Who listens: a radio that takes any frame, or one that reads the frame as readPacket does. */
  datatype Peer = Any | Reader

  /** These bytes of the frame come out at the peer, the reading interrupted anyhow. */
  ghost predicate ComesOut(peer: Peer, f: Frame, air: seq<byte>)
    requires |f.data| <= 255
  {
    match peer
    case Any => air == AirData(f.data)
    case Reader => exists rs, o ::
      BytesOf(rs) == EncodeFrame(f) && o in Run(Init(), rs).out && o.Accepted? && air == AirData(o.data)
  }

  /** The peer can get these bytes when message m is sent to it. */
  ghost predicate Gets(peer: Peer, a: Address, m: SnMessage, air: seq<byte>) {
    exists bytes :: SentAs(m, bytes) && ComesOut(peer, RequestFrame(Unicast(a, bytes)), air)
  }

  function Limit(peer: Peer): nat {
    match peer case Any => 242 case Reader => 111
  }

  /** Some way to read the frame that finds every byte at once. */
  lemma {:induction false} ReadAtOnce(bs: seq<byte>) returns (rs: seq<Read>)
    ensures BytesOf(rs) == bs
  {
    if bs == [] {
      rs := [];
    } else {
      var more := ReadAtOnce(bs[1..]);
      rs := [Read.Got(bs[0])] + more;
    }
  }

  lemma ReaderGets(f: Frame, air: seq<byte>)
    requires |f.data| <= 255
    ensures ComesOut(Reader, f, air) <==> |f.data| <= MAX_DATA && air == AirData(f.data)
  {
    forall rs: seq<Read> | BytesOf(rs) == EncodeFrame(f)
      ensures
        var out := Run(Init(), rs).out;
        if |f.data| <= MAX_DATA then out == [Accepted(f.api, f.data, Checksum(f))] else forall o | o in out :: o == TooLong
    {
      FrameAcceptedIff(f, rs);
    }
    var rs := ReadAtOnce(EncodeFrame(f));
    if |f.data| <= MAX_DATA {
      assert Accepted(f.api, f.data, Checksum(f)) in Run(Init(), rs).out;
    }
  }

  /** A message gets through whole up to the limit, and above it not one byte of it does. */
  lemma ThroughIff(peer: Peer, a: Address, bytes: seq<byte>, air: seq<byte>)
    requires |bytes| <= 255 && air != []
    ensures ComesOut(peer, RequestFrame(Unicast(a, bytes)), air) <==> |bytes| <= Limit(peer) && air == bytes
  {
    AllOrNothing(a, bytes);
    FrameSize(a, bytes);
    ReaderGets(RequestFrame(Unicast(a, bytes)), air);
  }

  lemma FrameSize(a: Address, bytes: seq<byte>)
    requires |bytes| <= 255
    ensures |RequestFrame(Unicast(a, bytes)).data| == if |bytes| <= 242 then 13 + |bytes| else |bytes| - 243
  {
    assert FrameDataLength(Unicast(a, bytes)) == (13 + |bytes|) % 256;
  }

  lemma GetsIff(peer: Peer, a: Address, m: SnMessage, air: seq<byte>)
    requires air != []
    ensures Gets(peer, a, m, air) <==> |air| <= Limit(peer) && SentAs(m, air)
  {
    forall bytes | SentAs(m, bytes)
      ensures ComesOut(peer, RequestFrame(Unicast(a, bytes)), air) <==> |bytes| <= Limit(peer) && air == bytes
    {
      ThroughIff(peer, a, bytes, air);
    }
  }

  /** What a client reads in the bytes it gets. */
  predicate IsPublish(air: seq<byte>, flags: byte, topicId: uint16, msgId: uint16, data: seq<byte>) {
    && |air| >= 7 && air[0] == |air| && air[1] == 0x0c && air[2] == flags
    && GetUint16(air[3], air[4]) == topicId && GetUint16(air[5], air[6]) == msgId && air[7..] == data
  }

  predicate IsRegister(air: seq<byte>, topicId: uint16, name: Str) {
    && |air| >= 6 && air[0] == |air| && air[1] == 0x0a
    && GetUint16(air[2], air[3]) == topicId && GetUint16(air[4], air[5]) == 0 && air[6..] == name
  }
}
