/** What a transmit request says to the radio module: a reader of its frame data that shares nothing
    with the sender, and the address of a sender as it is taken from a received frame. */
module TransmitRequests {
  import opened Wrappers
  import opened Bytes
  import opened XBeeFraming
  import opened Radio
  import XBeeReference

  datatype Transmit = Transmit(
    frameId: byte, msb: nat, lsb: nat, addr16: uint16, radius: byte, option: byte, payload: seq<byte>)

  /** getLong, for any number of bytes: the low one first. */
  function GetLong(bs: seq<byte>): nat {
    if bs == [] then 0 else bs[0] + 0x100 * GetLong(bs[1..])
  }

  function ReadTransmit(data: seq<byte>): Option<Transmit> {
    if |data| < 13 then None
    else Some(Transmit(data[0], GetLong(data[1..5]), GetLong(data[5..9]), GetUint16(data[9], data[10]),
      data[11], data[12], data[13..]))
  }

  /** Frame id 0, and the request's address, radius, option and bytes. */
  predicate Says(data: seq<byte>, r: Request) {
    ReadTransmit(data) == Some(Transmit(0, r.msb, r.lsb, r.addr16, r.radius, r.option, r.payload))
  }

  predicate Addressable(r: Request) {
    r.msb < 0x1_0000_0000 && r.lsb < 0x1_0000_0000
  }

  /** The n low bytes of v, the lowest first. */
  function LowFirst(v: nat, n: nat): (bs: seq<byte>)
    ensures |bs| == n
  {
    if n == 0 then [] else [v % 0x100] + LowFirst(v / 0x100, n - 1)
  }

  function Limit(n: nat): nat {
    if n == 0 then 1 else 0x100 * Limit(n - 1)
  }

  lemma {:induction false} GetLongOfLowFirst(v: nat, n: nat)
    requires v < Limit(n)
    ensures GetLong(LowFirst(v, n)) == v
  {
    if n > 0 {
      GetLongOfLowFirst(v / 0x100, n - 1);
      assert LowFirst(v, n)[1..] == LowFirst(v / 0x100, n - 1);
    }
  }

  lemma {:induction false} LowFirstOfGetLong(bs: seq<byte>)
    ensures GetLong(bs) < Limit(|bs|) && LowFirst(GetLong(bs), |bs|) == bs
  {
    if bs != [] {
      LowFirstOfGetLong(bs[1..]);
      assert bs == [bs[0]] + bs[1..];
    }
  }

  lemma FourBytes()
    ensures Limit(4) == 0x1_0000_0000
  {
    assert Limit(2) == 0x1_0000;
  }

  lemma FourDigits(v: nat)
    ensures LowFirst(v, 4) == [v % 256, (v / 256) % 256, (v / 65536) % 256, (v / 16777216) % 256]
  {
    var q, r := v / 0x100, v / 0x1_0000;
    assert q / 0x100 == r && r / 0x100 == v / 0x100_0000;
    assert LowFirst(r, 2) == [r % 0x100] + LowFirst(r / 0x100, 1);
    assert LowFirst(v / 0x100_0000, 0) == [];
  }

  lemma RequestSize(r: Request)
    requires |r.payload| <= 255
    ensures |RequestFrame(r).data| == if |r.payload| <= 242 then 13 + |r.payload| else |r.payload| - 243
  {
    assert FrameDataLength(r) == (13 + |r.payload|) % 256;
  }

  /** Up to 242 bytes the frame data is not cut. */
  lemma FrameDataInParts(r: Request)
    requires |r.payload| <= 242
    ensures RequestFrame(r).data ==
      [0] + LowFirst(r.msb, 4) + LowFirst(r.lsb, 4) + PutUint16(r.addr16) + [r.radius, r.option] + r.payload
  {
    RequestSize(r);
    FourDigits(r.msb);
    FourDigits(r.lsb);
    assert FrameData(r)[..FrameDataLength(r)] == FrameData(r);
  }

  lemma Parts(msb: seq<byte>, lsb: seq<byte>, addr16: seq<byte>, rest: seq<byte>, bytes: seq<byte>, data: seq<byte>)
    requires |msb| == |lsb| == 4 && |addr16| == |rest| == 2 && data == [0] + msb + lsb + addr16 + rest + bytes
    ensures |data| == 13 + |bytes| && data[1..5] == msb && data[5..9] == lsb && data[13..] == bytes
    ensures data[0] == 0 && data[9] == addr16[0] && data[10] == addr16[1] && data[11] == rest[0] && data[12] == rest[1]
  {
  }

  lemma ReadParts(data: seq<byte>, r: Request)
    requires |data| == 13 + |r.payload| && GetLong(data[1..5]) == r.msb && GetLong(data[5..9]) == r.lsb
    requires data[0] == 0 && [data[9], data[10]] == PutUint16(r.addr16) && data[13..] == r.payload
    requires data[11] == r.radius && data[12] == r.option
    ensures Says(data, r)
  {
  }

  lemma LongIff(v: nat)
    ensures GetLong(LowFirst(v, 4)) == v <==> v < 0x1_0000_0000
  {
    FourBytes();
    LowFirstOfGetLong(LowFirst(v, 4));
    if v < 0x1_0000_0000 {
      GetLongOfLowFirst(v, 4);
    }
  }

  /** The frame of a request says what the request is, if and only if both halves of the address
      have 32 bits and there are at most 242 bytes. */
  lemma SaysIff(r: Request)
    requires |r.payload| <= 255
    ensures
      var f := RequestFrame(r);
      f.api == r.api && (Says(f.data, r) <==> Addressable(r) && |r.payload| <= 242)
  {
    RequestSize(r);
    if |r.payload| <= 242 {
      FrameDataInParts(r);
      LongIff(r.msb);
      LongIff(r.lsb);
      var data := RequestFrame(r).data;
      Parts(LowFirst(r.msb, 4), LowFirst(r.lsb, 4), PutUint16(r.addr16), [r.radius, r.option], r.payload, data);
      if Addressable(r) {
        ReadParts(data, r);
      }
    }
  }

  /** From the serial line: any list of requests, with noise around their frames and the reading
      interrupted anywhere, is read as exactly these requests. */
  lemma RequestsAreRead(requests: seq<Request>, lead: seq<byte>, noise: seq<seq<byte>>, rs: seq<Read>)
    requires |noise| == |requests| && START !in lead
    requires forall i | 0 <= i < |requests| ::
      Addressable(requests[i]) && |requests[i].payload| <= 111 && START !in noise[i]
    requires BytesOf(rs) == lead + Stream(ItemsOf(requests, noise))
    ensures
      var out := Calls(Init(), rs).out;
      && |out| == |requests|
      && forall i | 0 <= i < |requests| ::
           out[i].Accepted? && out[i].api == requests[i].api && Says(out[i].data, requests[i])
  {
    StreamRoundTrip(requests, lead, noise, rs);
    forall i | 0 <= i < |requests| ensures Says(FrameData(requests[i]), requests[i]) {
      SaysIff(requests[i]);
    }
  }

  /** The bytes themselves: a start byte, and, the stuffing undone, the length, the request up to
      242 bytes, and a checksum that completes the sum to 0xff. */
  lemma WrittenSays(r: Request)
    requires Addressable(r) && |r.payload| <= 242
    ensures
      var w := EncodeFrame(RequestFrame(r));
      var b := XBeeReference.Unstuff(w[1..]);
      && w[0] == 0x7e && |b| == |r.payload| + 17 && GetUint16(b[0], b[1]) == |r.payload| + 14
      && b[2] == r.api && Says(b[3..|b| - 1], r) && Sum(b[2..]) % 256 == 0xff
  {
    RequestSize(r);
    SaysIff(r);
    WrittenIsBody(RequestFrame(r));
  }

  lemma WrittenIsBody(f: Frame)
    requires |f.data| <= 255
    ensures
      var w := EncodeFrame(f);
      var b := XBeeReference.Unstuff(w[1..]);
      && w[0] == 0x7e && |b| == |f.data| + 4 && GetUint16(b[0], b[1]) == |f.data| + 1
      && b[2] == f.api && b[3..|b| - 1] == f.data && Sum(b[2..]) % 256 == 0xff
  {
    var body := Body(f);
    assert EncodeFrame(f)[1..] == StuffAll(body);
    XBeeReference.UnstuffOfStuff(body);
    assert body[3..|body| - 1] == f.data;
    BodySum(f);
  }

  lemma BodySum(f: Frame)
    requires |f.data| <= 255
    ensures Sum(Body(f)[2..]) % 256 == 0xff
  {
    assert Body(f)[2..] == [f.api] + f.data + [Checksum(f)];
    SumAppend([f.api] + f.data, [Checksum(f)]);
    SumAppend([f.api], f.data);
    SumOne(f.api);
    SumOne(Checksum(f));
  }

  lemma SumOne(b: byte)
    ensures Sum([b]) == b
  {
    assert [b][1..] == [];
  }

  /** Different requests are written as different bytes. */
  lemma NoTwoAlike(r: Request, q: Request)
    requires Addressable(r) && Addressable(q) && |r.payload| <= 242 && |q.payload| <= 242
    requires EncodeFrame(RequestFrame(r)) == EncodeFrame(RequestFrame(q))
    ensures r == q
  {
    WrittenSays(r);
    WrittenSays(q);
  }

  /** A message for a client: what the radio module is told of it. */
  lemma UnicastSays(a: Address, bytes: seq<byte>)
    requires a.msb < 0x1_0000_0000 && a.lsb < 0x1_0000_0000 && |bytes| <= 242
    ensures
      var f := RequestFrame(Unicast(a, bytes));
      f.api == 0x10 && ReadTransmit(f.data) == Some(Transmit(0, a.msb, a.lsb, a.addr16, 0, 0, bytes))
  {
    SaysIff(Unicast(a, bytes));
  }

  /** Who sent a received frame: getRemoteAddressMsb, getRemoteAddressLsb, getRemoteAddress16. */
  function Sender(data: seq<byte>): Address
    requires |data| >= 10
  {
    Address(GetLong(data[0..4]), GetLong(data[4..8]), GetUint16(data[8], data[9]))
  }

  /** A message to the sender of a received frame goes out under the very bytes that named it. */
  lemma ReplyGoesBack(data: seq<byte>, bytes: seq<byte>)
    requires |data| >= 10 && |bytes| <= 242
    ensures Addressable(Unicast(Sender(data), bytes))
    ensures RequestFrame(Unicast(Sender(data), bytes)).data[1..11] == data[..10]
  {
    var r := Unicast(Sender(data), bytes);
    FrameDataInParts(r);
    FourBytes();
    LowFirstOfGetLong(data[0..4]);
    LowFirstOfGetLong(data[4..8]);
    MiddlePart(data, PutUint16(r.addr16), bytes);
  }

  lemma MiddlePart(data: seq<byte>, addr16: seq<byte>, bytes: seq<byte>)
    requires |data| >= 10 && addr16 == [data[8], data[9]]
    ensures ([0] + data[0..4] + data[4..8] + addr16 + [0, 0] + bytes)[1..11] == data[..10]
  {
  }
}
