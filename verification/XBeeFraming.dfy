/** XBee API frames: what sendRequest writes and what readPacket makes of any sequence of
    bytes, interrupted anywhere. Lengths, stuffing and checksum as in ZBStack.cpp. */
module XBeeFraming {
  import opened Bytes

  const START: byte := 0x7e
  const ESCAPE: byte := 0x7d
  const XON: byte := 0x11
  const XOFF: byte := 0x13
  const MAX_FRAME_DATA_SIZE := 128
  const API_ID_INDEX := 3
  /** The longest frame data that still fits: its checksum is byte number 128. */
  const MAX_DATA := 124

  /** One call of XBee::read: a byte, or `false` because none is there yet. */
  datatype Read = Got(b: byte) | Nothing

  /** How a call of readPacket can end other than by running out of bytes. */
  datatype Outcome =
    | Accepted(api: byte, data: seq<byte>, checksum: byte)
    | ChecksumFailure
    | TooLong

  /** The fields readPacket keeps between bytes. `inEscape` is a control location: ESCAPE
      was read and the inner read is still to come. */
  datatype Decoder = Decoder(
    pos: nat, escape: bool, inEscape: bool, sum: byte,
    msb: byte, lsb: byte, api: byte, buf: seq<byte>)
  {
    predicate Valid() {
      pos <= MAX_FRAME_DATA_SIZE + 1 && |buf| == MAX_FRAME_DATA_SIZE
    }

    /** getPacketLength: the high byte is shifted out before the mask. */
    function PacketLength(): nat {
      (msb * 256) % 256 + lsb
    }
  }

  datatype Progress = Progress(dec: Decoder, out: seq<Outcome>)

  /** The switch on _pos for one unescaped byte. */
  function Accept(d: Decoder, b: byte): (r: Progress)
    requires d.Valid()
    ensures r.dec.Valid() && r.dec.inEscape == d.inEscape && r.dec.escape == d.escape
    ensures |r.out| <= 1
  {
    var d := if d.pos >= API_ID_INDEX then d.(sum := (d.sum + b) % 256) else d;
    if d.pos == 0 then Progress(if b == START then d.(pos := 1) else d, [])
    else if d.pos == 1 then Progress(d.(msb := b, pos := 2), [])
    else if d.pos == 2 then Progress(d.(lsb := b, pos := 3), [])
    else if d.pos == 3 then Progress(d.(api := b, pos := 4), [])
    else if d.pos > MAX_FRAME_DATA_SIZE then Progress(d, [TooLong])
    else if d.pos == d.PacketLength() + 3 then
      Progress(d.(pos := 0, sum := 0),
               [if d.sum == 0xff then Accepted(d.api, d.buf[..d.pos - 4], b) else ChecksumFailure])
    else
      Progress(d.(buf := d.buf[d.pos - 4 := b], pos := d.pos + 1), [])
  }

  /** A byte on its way to the switch, after a pending _escape has been applied. */
  function Unescape(d: Decoder, b: byte): (r: Progress)
    requires d.Valid()
    ensures r.dec.Valid() && r.dec.inEscape == d.inEscape && !r.dec.escape
    ensures |r.out| <= 1
  {
    if d.escape then Accept(d.(escape := false), Flip(b)) else Accept(d, b)
  }

  /** One read of readPacket, at the loop head or inside the escape branch. */
  function OnRead(d: Decoder, r: Read): (p: Progress)
    requires d.Valid()
    ensures p.dec.Valid() && |p.out| <= 1
    ensures p.out != [] ==> !p.dec.inEscape && !p.dec.escape
  {
    match r
    case Nothing =>
      Progress(if d.inEscape then d.(inEscape := false, escape := true) else d, [])
    case Got(b) =>
      if d.inEscape then Unescape(d.(inEscape := false), Flip(b))
      else
        var d1 := if d.pos > 0 && b == START then d.(pos := 0) else d;
        if d1.pos > 0 && b == ESCAPE then Progress(d1.(inEscape := true), [])
        else Unescape(d1, b)
  }

  /** A whole sequence of reads, over as many calls of readPacket as it takes. */
  function Run(d: Decoder, rs: seq<Read>): (p: Progress)
    requires d.Valid()
    ensures p.dec.Valid()
    decreases |rs|
  {
    if rs == [] then Progress(d, [])
    else
      var s := OnRead(d, rs[0]);
      var t := Run(s.dec, rs[1..]);
      Progress(t.dec, s.out + t.out)
  }

  lemma {:induction false} RunAppend(d: Decoder, a: seq<Read>, b: seq<Read>)
    requires d.Valid()
    ensures Run(d, a + b) == (var s := Run(d, a); var t := Run(s.dec, b); Progress(t.dec, s.out + t.out))
    decreases |a|
  {
    if a == [] {
      assert a + b == b;
    } else {
      assert (a + b)[1..] == a[1..] + b;
      var s := OnRead(d, a[0]);
      RunAppend(s.dec, a[1..], b);
      var x, y := Run(s.dec, a[1..]), Run(Run(s.dec, a[1..]).dec, b);
      assert s.out + x.out + y.out == s.out + (x.out + y.out);
    }
  }

  /** The state in which XBee::XBee leaves the decoder. */
  function Init(): (d: Decoder)
    ensures d.Valid()
  {
    Decoder(0, false, false, 0, 0, 0, 0, seq(MAX_FRAME_DATA_SIZE, i => 0))
  }

  // ---------- One call of readPacket ----------

  datatype Call = Call(dec: Decoder, rest: seq<Read>, out: seq<Outcome>)

  /** One call of readPacket: it returns on the first outcome, and when the read at the loop
      head finds nothing. A sequence that has run out finds nothing for ever. */
  function ReadCall(d: Decoder, rs: seq<Read>): (c: Call)
    requires d.Valid()
    ensures c.dec.Valid() && !c.dec.inEscape && |c.out| <= 1
    ensures |c.rest| <= |rs| && (rs != [] ==> |c.rest| < |rs|)
    decreases |rs|
  {
    if rs == [] then Call(OnRead(d, Nothing).dec, [], [])
    else if rs[0].Nothing? && !d.inEscape then Call(d, rs[1..], [])
    else
      var s := OnRead(d, rs[0]);
      if s.out != [] then Call(s.dec, rs[1..], s.out)
      else ReadCall(s.dec, rs[1..])
  }

  /** Calls of readPacket, one after another, until the sequence is used up. */
  function Calls(d: Decoder, rs: seq<Read>): (p: Progress)
    requires d.Valid()
    decreases |rs|
  {
    var c := ReadCall(d, rs);
    if rs == [] then Progress(c.dec, [])
    else
      var t := Calls(c.dec, c.rest);
      Progress(t.dec, c.out + t.out)
  }

  /** The state once the reader has come back empty-handed. */
  function Settle(p: Progress): (r: Progress)
    requires p.dec.Valid()
  {
    Progress(OnRead(p.dec, Nothing).dec, p.out)
  }

  lemma {:induction false} ReadCallIsARun(d: Decoder, rs: seq<Read>)
    requires d.Valid()
    ensures
      var c := ReadCall(d, rs);
      Settle(Run(d, rs)) == (var t := Run(c.dec, c.rest); Settle(Progress(t.dec, c.out + t.out)))
    decreases |rs|
  {
    if rs != [] && !(rs[0].Nothing? && !d.inEscape) {
      var s := OnRead(d, rs[0]);
      if s.out == [] {
        ReadCallIsARun(s.dec, rs[1..]);
        assert s.out + Run(s.dec, rs[1..]).out == Run(s.dec, rs[1..]).out;
      }
    }
  }

  /** However the bytes are spread over calls, the outcomes returned are those of one run. */
  lemma {:induction false} CallsAreOneRun(d: Decoder, rs: seq<Read>)
    requires d.Valid()
    ensures Calls(d, rs) == Settle(Run(d, rs))
    decreases |rs|
  {
    ReadCallIsARun(d, rs);
    if rs != [] {
      var c := ReadCall(d, rs);
      CallsAreOneRun(c.dec, c.rest);
    }
  }

  // ---------- The sender ----------

  /** sendByte(b, true) */
  function Stuff(b: byte): (w: seq<byte>)
    ensures |w| == 1 || |w| == 2
  {
    if b == START || b == ESCAPE || b == XON || b == XOFF then [ESCAPE, Flip(b)] else [b]
  }

  function StuffAll(bs: seq<byte>): seq<byte> {
    if bs == [] then [] else Stuff(bs[0]) + StuffAll(bs[1..])
  }

  /** A byte is escaped exactly if it is a start byte, an escape byte, XON or XOFF. */
  lemma EscapedIff(b: byte)
    ensures (Stuff(b) == [b] <==> b !in {0x7e, 0x7d, 0x11, 0x13}) && (Stuff(b) != [b] ==> Stuff(b) == [0x7d, Flip(b)])
  {
  }

  /** So nothing that is sent behind a start byte can be taken for another one, or for flow control
      on the line. */
  lemma {:induction false} NoControlBytes(bs: seq<byte>)
    ensures forall i | 0 <= i < |StuffAll(bs)| :: StuffAll(bs)[i] !in {0x7e, 0x11, 0x13}
  {
    if bs != [] {
      NoControlBytes(bs[1..]);
      var first, rest := Stuff(bs[0]), StuffAll(bs[1..]);
      forall i | 0 <= i < |StuffAll(bs)| ensures StuffAll(bs)[i] !in {0x7e, 0x11, 0x13} {
        if i >= |first| {
          assert StuffAll(bs)[i] == rest[i - |first|];
        }
      }
    }
  }

  lemma {:induction false} StuffAllAppend(a: seq<byte>, b: seq<byte>)
    ensures StuffAll(a + b) == StuffAll(a) + StuffAll(b)
  {
    if a == [] {
      assert a + b == b;
    } else {
      assert (a + b)[1..] == a[1..] + b;
      StuffAllAppend(a[1..], b);
    }
  }

  datatype Frame = Frame(api: byte, data: seq<byte>)

  function Checksum(f: Frame): byte {
    (0xff - (f.api + Sum(f.data))) % 256
  }

  /** Everything after the start byte, before stuffing. */
  function Body(f: Frame): seq<byte>
    requires |f.data| <= 255
  {
    var len := |f.data| + 1;
    [(len / 256) % 256, len % 256, f.api] + f.data + [Checksum(f)]
  }

  function EncodeFrame(f: Frame): seq<byte>
    requires |f.data| <= 255
  {
    [START] + StuffAll(Body(f))
  }

  /** XBRequest: the address is in the byte order getFrameData gives it. */
  datatype Request = Request(api: byte, msb: nat, lsb: nat, addr16: uint16, radius: byte, option: byte, payload: seq<byte>)

  /** getFrameData(pos) for pos = 0, 1, ... : frame id, 64-bit address, 16-bit address,
      radius, option, payload. */
  function FrameData(r: Request): (d: seq<byte>)
    ensures |d| == 13 + |r.payload|
  {
    [0, r.msb % 256, (r.msb / 256) % 256, (r.msb / 65536) % 256, (r.msb / 16777216) % 256,
     r.lsb % 256, (r.lsb / 256) % 256, (r.lsb / 65536) % 256, (r.lsb / 16777216) % 256,
     r.addr16 / 256, r.addr16 % 256, r.radius, r.option] + r.payload
  }

  /** getFrameDataLength is a uint8_t. */
  function FrameDataLength(r: Request): byte {
    (13 + |r.payload|) % 256
  }

  function RequestFrame(r: Request): (f: Frame)
    ensures |f.data| <= 255
    ensures |r.payload| <= 111 ==> |f.data| <= MAX_DATA && f.data == FrameData(r)
  {
    Frame(r.api, FrameData(r)[..FrameDataLength(r)])
  }

  // ---------- Bytes of a sequence of reads ----------

  function BytesOf(rs: seq<Read>): seq<byte> {
    if rs == [] then []
    else (match rs[0] case Got(b) => [b] case Nothing => []) + BytesOf(rs[1..])
  }

  lemma {:induction false} BytesOfAppend(a: seq<Read>, b: seq<Read>)
    ensures BytesOf(a + b) == BytesOf(a) + BytesOf(b)
  {
    if a == [] {
      assert a + b == b;
    } else {
      assert (a + b)[1..] == a[1..] + b;
      BytesOfAppend(a[1..], b);
      var head: seq<byte> := match a[0] case Got(c) => [c] case Nothing => [];
      assert head + BytesOf(a[1..]) + BytesOf(b) == head + (BytesOf(a[1..]) + BytesOf(b));
    }
  }

  /** Reads that carry a + b can be cut where a ends. */
  lemma {:induction false} CutReads(rs: seq<Read>, a: seq<byte>, b: seq<byte>) returns (n: nat)
    requires BytesOf(rs) == a + b
    ensures n <= |rs| && BytesOf(rs[..n]) == a && BytesOf(rs[n..]) == b
  {
    if a == [] {
      n := 0;
      assert rs[0..] == rs && a + b == b;
    } else {
      match rs[0]
      case Nothing =>
        assert BytesOf(rs[1..]) == a + b;
        var m := CutReads(rs[1..], a, b);
        n := m + 1;
        assert rs[..n][1..] == rs[1..][..m] && rs[n..] == rs[1..][m..];
      case Got(c) =>
        assert BytesOf(rs[1..]) == (a + b)[1..] == a[1..] + b;
        var m := CutReads(rs[1..], a[1..], b);
        n := m + 1;
        assert rs[..n][1..] == rs[1..][..m] && rs[n..] == rs[1..][m..];
        assert a == [c] + a[1..];
    }
  }

  /** CutReads, with the run cut at the same place. */
  lemma {:induction false} CutRun(d: Decoder, rs: seq<Read>, a: seq<byte>, b: seq<byte>)
    returns (x: seq<Read>, y: seq<Read>)
    requires d.Valid() && BytesOf(rs) == a + b
    ensures BytesOf(x) == a && BytesOf(y) == b
    ensures Run(d, rs) == (var s := Run(d, x); var t := Run(s.dec, y); Progress(t.dec, s.out + t.out))
  {
    var n := CutReads(rs, a, b);
    x, y := rs[..n], rs[n..];
    assert x + y == rs;
    RunAppend(d, x, y);
  }

  // ---------- One stuffed byte, however it is interrupted ----------

  predicate AtTop(d: Decoder) {
    d.Valid() && !d.escape && !d.inEscape
  }

  lemma {:induction false} RunQuiet(d: Decoder, rs: seq<Read>)
    requires d.Valid() && !d.inEscape && BytesOf(rs) == []
    ensures Run(d, rs) == Progress(d, [])
  {
    if rs != [] {
      assert rs[0].Nothing?;
      RunQuiet(d, rs[1..]);
    }
  }

  /** The second byte of an escape pair: the reader is in the inner read, or was sent away
      from it and kept the _escape flag. */
  lemma {:induction false} FeedSecond(d: Decoder, b: byte, rs: seq<Read>)
    requires d.Valid() && d.pos > 0 && d.inEscape != d.escape
    requires Stuff(b) == [ESCAPE, Flip(b)] && BytesOf(rs) == [Flip(b)]
    ensures Run(d, rs) == Accept(d.(escape := false, inEscape := false), b)
    decreases |rs|
  {
    match rs[0]
    case Nothing =>
      FeedSecond(OnRead(d, Nothing).dec, b, rs[1..]);
      assert OnRead(d, Nothing).dec.(escape := false, inEscape := false) == d.(escape := false, inEscape := false);
    case Got(c) =>
      assert BytesOf(rs) == [c] + BytesOf(rs[1..]);
      assert c == BytesOf(rs)[0] && Flip(c) == b;
      var s := OnRead(d, rs[0]);
      assert BytesOf(rs[1..]) == [];
      RunQuiet(s.dec, rs[1..]);
      assert s == Accept(d.(escape := false, inEscape := false), b);
      assert s.out + [] == s.out;
  }

  lemma {:induction false} FeedStuffed(d: Decoder, b: byte, rs: seq<Read>)
    requires AtTop(d) && d.pos > 0
    requires BytesOf(rs) == Stuff(b)
    ensures Run(d, rs) == Accept(d, b)
  {
    match rs[0]
    case Nothing =>
      assert BytesOf(rs[1..]) == Stuff(b);
      FeedStuffed(d, b, rs[1..]);
    case Got(c) =>
      assert c == Stuff(b)[0] && BytesOf(rs[1..]) == Stuff(b)[1..];
      var s := OnRead(d, rs[0]);
      if |Stuff(b)| == 1 {
        assert Stuff(b) == [b];
        RunQuiet(s.dec, rs[1..]);
        assert s.out + [] == s.out;
      } else {
        FeedSecond(s.dec, b, rs[1..]);
        assert s.dec.(escape := false, inEscape := false) == d;
      }
  }

  // ---------- A whole frame body ----------

  function AcceptAll(d: Decoder, bs: seq<byte>): (p: Progress)
    requires d.Valid()
    ensures p.dec.Valid() && p.dec.inEscape == d.inEscape && p.dec.escape == d.escape
    decreases |bs|
  {
    if bs == [] then Progress(d, [])
    else
      var s := Accept(d, bs[0]);
      var t := AcceptAll(s.dec, bs[1..]);
      Progress(t.dec, s.out + t.out)
  }

  /** The decoder stays inside the frame until the last of these bytes. */
  predicate Inside(d: Decoder, bs: seq<byte>)
    requires d.Valid()
    decreases |bs|
  {
    bs != [] ==> d.pos > 0 && Inside(Accept(d, bs[0]).dec, bs[1..])
  }

  lemma {:induction false} FeedBody(d: Decoder, bs: seq<byte>, rs: seq<Read>)
    requires AtTop(d) && Inside(d, bs) && BytesOf(rs) == StuffAll(bs)
    ensures Run(d, rs) == AcceptAll(d, bs)
    decreases |bs|
  {
    if bs == [] {
      RunQuiet(d, rs);
    } else {
      var x, y := CutRun(d, rs, Stuff(bs[0]), StuffAll(bs[1..]));
      FeedStuffed(d, bs[0], x);
      FeedBody(Accept(d, bs[0]).dec, bs[1..], y);
    }
  }

  /** Data and checksum, from the point where `d.pos - 4` data bytes are already in. */
  ghost predicate EndsFrame(d: Decoder, data: seq<byte>, chk: byte)
    requires d.Valid() && 4 <= d.pos <= |d.buf| + 4
  {
    var p := AcceptAll(d, data + [chk]);
    && Inside(d, data + [chk]) && p.dec.pos == 0 && p.dec.sum == 0
    && p.out == [if (d.sum + Sum(data) + chk) % 256 == 0xff
                 then Accepted(d.api, d.buf[..d.pos - 4] + data, chk) else ChecksumFailure]
  }

  lemma {:induction false} AcceptTail(d: Decoder, data: seq<byte>, chk: byte)
    requires d.Valid() && 4 <= d.pos && d.lsb == d.pos - 4 + |data| + 1
    requires d.pos - 4 + |data| <= MAX_DATA
    ensures EndsFrame(d, data, chk)
    decreases |data|
  {
    if data == [] {
      assert data + [chk] == [chk];
      AcceptChecksum(d, chk);
      assert d.buf[..d.pos - 4] + data == d.buf[..d.pos - 4];
    } else {
      AcceptDatum(d, data[0]);
      AcceptTail(Accept(d, data[0]).dec, data[1..], chk);
      OneDatum(d, Accept(d, data[0]).dec, data, chk);
    }
  }

  lemma OneDatum(d: Decoder, e: Decoder, data: seq<byte>, chk: byte)
    requires d.Valid() && 4 <= d.pos && d.pos - 3 <= MAX_DATA && data != [] && Accept(d, data[0]) == Progress(e, [])
    requires e.Valid() && e.pos == d.pos + 1 && e.api == d.api && e.sum == (d.sum + data[0]) % 256
    requires e.buf[..d.pos - 3] == d.buf[..d.pos - 4] + [data[0]] && EndsFrame(e, data[1..], chk)
    ensures EndsFrame(d, data, chk)
  {
    FirstAndRest(data, chk);
    AcceptOne(d, data[0], data[1..] + [chk]);
    MoveFirst(d.buf[..d.pos - 4], data);
    SumInSteps(d.sum, data[0], Sum(data[1..]) + chk);
  }

  lemma FirstAndRest(data: seq<byte>, chk: byte)
    requires data != []
    ensures data + [chk] == [data[0]] + (data[1..] + [chk])
  {
  }

  lemma MoveFirst(front: seq<byte>, data: seq<byte>)
    requires data != []
    ensures front + [data[0]] + data[1..] == front + data
  {
  }

  lemma SumInSteps(sum: int, b: int, more: int)
    ensures ((sum + b) % 256 + more) % 256 == (sum + b + more) % 256
  {
  }

  lemma AcceptChecksum(d: Decoder, chk: byte)
    requires d.Valid() && 4 <= d.pos && d.lsb == d.pos - 3 && d.pos - 4 <= MAX_DATA
    ensures Inside(d, [chk])
    ensures
      var p := AcceptAll(d, [chk]);
      && p.dec.pos == 0 && p.dec.sum == 0
      && p.out == [if (d.sum + chk) % 256 == 0xff then Accepted(d.api, d.buf[..d.pos - 4], chk) else ChecksumFailure]
  {
    var s := Accept(d, chk);
    assert [chk][1..] == [] && d.pos == d.PacketLength() + 3;
    assert AcceptAll(s.dec, [chk][1..]) == Progress(s.dec, []);
  }

  lemma AcceptDatum(d: Decoder, b: byte)
    requires d.Valid() && 4 <= d.pos && d.pos - 3 < d.lsb && d.pos - 3 <= MAX_DATA
    ensures
      var s := Accept(d, b);
      && s.out == [] && s.dec.Valid() && s.dec.pos == d.pos + 1 && s.dec.lsb == d.lsb && s.dec.api == d.api
      && s.dec.sum == (d.sum + b) % 256 && s.dec.buf[..d.pos - 3] == d.buf[..d.pos - 4] + [b]
  {
    assert d.buf[d.pos - 4 := b][..d.pos - 3] == d.buf[..d.pos - 4] + [b];
  }

  /** A byte that ends nothing. */
  lemma AcceptOne(d: Decoder, b: byte, bs: seq<byte>)
    requires d.Valid() && Accept(d, b).out == []
    ensures AcceptAll(d, [b] + bs) == AcceptAll(Accept(d, b).dec, bs)
    ensures d.pos > 0 && Inside(Accept(d, b).dec, bs) ==> Inside(d, [b] + bs)
  {
    assert ([b] + bs)[1..] == bs;
  }

  /** The checksum residue a decoder carries into a frame decides that frame, and only it. */
  function Verdict(f: Frame, residue: byte): Outcome {
    if residue == 0 then Accepted(f.api, f.data, Checksum(f)) else ChecksumFailure
  }

  lemma AcceptBody(d: Decoder, f: Frame)
    requires d.Valid() && d.pos == 1 && |f.data| <= MAX_DATA
    ensures Inside(d, Body(f))
    ensures
      var p := AcceptAll(d, Body(f));
      p.dec.pos == 0 && p.dec.sum == 0 && p.out == [Verdict(f, d.sum)]
  {
    var len: byte := |f.data| + 1;
    var tail := f.data + [Checksum(f)];
    BodyParts(f, len, tail);
    var d3 := d.(msb := 0, lsb := len, api := f.api, pos := 4, sum := (d.sum + f.api) % 256);
    AcceptChecked(d3, f, d.sum, tail);
    AcceptHeader(d, len, f.api, tail);
  }

  lemma AcceptChecked(d: Decoder, f: Frame, residue: byte, tail: seq<byte>)
    requires d.Valid() && d.pos == 4 && d.lsb == |f.data| + 1 && d.api == f.api && |f.data| <= MAX_DATA
    requires d.sum == (residue + f.api) % 256 && tail == f.data + [Checksum(f)]
    ensures Inside(d, tail)
    ensures
      var p := AcceptAll(d, tail);
      p.dec.pos == 0 && p.dec.sum == 0 && p.out == [Verdict(f, residue)]
  {
    AcceptTail(d, f.data, Checksum(f));
    ResidueDecides(residue, f);
    assert d.buf[..0] + f.data == f.data;
  }

  lemma BodyParts(f: Frame, len: byte, tail: seq<byte>)
    requires |f.data| <= MAX_DATA && len == |f.data| + 1 && tail == f.data + [Checksum(f)]
    ensures Body(f) == [0] + ([len] + ([f.api] + tail))
  {
  }

  lemma AcceptHeader(d: Decoder, len: byte, api: byte, tail: seq<byte>)
    requires d.Valid() && d.pos == 1
    ensures
      var d3 := d.(msb := 0, lsb := len, api := api, pos := 4, sum := (d.sum + api) % 256);
      && AcceptAll(d, [0] + ([len] + ([api] + tail))) == AcceptAll(d3, tail)
      && (Inside(d3, tail) ==> Inside(d, [0] + ([len] + ([api] + tail))))
  {
    var d1, d2 := d.(msb := 0, pos := 2), d.(msb := 0, lsb := len, pos := 3);
    var d3 := d.(msb := 0, lsb := len, api := api, pos := 4, sum := (d.sum + api) % 256);
    assert Accept(d, 0) == Progress(d1, []) && Accept(d1, len) == Progress(d2, []) && Accept(d2, api) == Progress(d3, []);
    AcceptOne(d2, api, tail);
    AcceptOne(d1, len, [api] + tail);
    AcceptOne(d, 0, [len] + ([api] + tail));
  }

  lemma ResidueDecides(residue: byte, f: Frame)
    ensures ((residue + f.api) % 256 + Sum(f.data) + Checksum(f)) % 256 == 0xff <==> residue == 0
  {
    var t := f.api + Sum(f.data);
    assert (t + Checksum(f)) % 256 == 0xff;
  }

  // ---------- Streams of frames with noise between them ----------

  datatype Item = Item(frame: Frame, noise: seq<byte>)

  /** A frame that the gateway can send, then any bytes that hold no start byte. */
  predicate Sendable(it: Item) {
    |it.frame.data| <= MAX_DATA && START !in it.noise
  }

  predicate AllSendable(items: seq<Item>) {
    forall i | 0 <= i < |items| :: Sendable(items[i])
  }

  function ItemBytes(it: Item): seq<byte>
    requires Sendable(it)
  {
    EncodeFrame(it.frame) + it.noise
  }

  function Stream(items: seq<Item>): seq<byte>
    requires AllSendable(items)
  {
    if items == [] then []
    else assert Sendable(items[0]); ItemBytes(items[0]) + Stream(items[1..])
  }

  function AllAccepted(items: seq<Item>): (out: seq<Outcome>)
    ensures |out| == |items|
    ensures forall i | 0 <= i < |items| ::
      out[i] == Accepted(items[i].frame.api, items[i].frame.data, Checksum(items[i].frame))
  {
    if items == [] then [] else [Verdict(items[0].frame, 0)] + AllAccepted(items[1..])
  }

  /** Outside a frame, anything but a start byte is skipped. */
  lemma {:induction false} SkipNoise(d: Decoder, rs: seq<Read>)
    requires AtTop(d) && d.pos == 0 && START !in BytesOf(rs)
    ensures Run(d, rs) == Progress(d, [])
  {
    if rs != [] {
      assert forall b :: b in BytesOf(rs[1..]) ==> b in BytesOf(rs);
      if rs[0].Got? {
        assert rs[0].b == BytesOf(rs)[0];
      }
      SkipNoise(d, rs[1..]);
    }
  }

  lemma {:induction false} NoStartInside(bs: seq<byte>)
    ensures START !in StuffAll(bs)
  {
    if bs != [] {
      NoStartInside(bs[1..]);
      assert START !in Stuff(bs[0]);
    }
  }

  /** The start byte alone, from any state at all. */
  lemma {:induction false} FeedStart(d: Decoder, rs: seq<Read>)
    requires d.Valid() && !d.inEscape && BytesOf(rs) == [START]
    ensures Run(d, rs).out == [] && AtTop(Run(d, rs).dec)
    ensures Run(d, rs).dec.sum == d.sum
    ensures Run(d, rs).dec.pos == if d.escape then 0 else 1
  {
    match rs[0]
    case Nothing =>
      FeedStart(d, rs[1..]);
    case Got(c) =>
      assert BytesOf(rs) == [c] + BytesOf(rs[1..]);
      assert c == BytesOf(rs)[0] && BytesOf(rs[1..]) == [];
      RunQuiet(OnRead(d, rs[0]).dec, rs[1..]);
  }

  /** What follows a start byte that was seen. */
  lemma FeedRest(d: Decoder, it: Item, rs: seq<Read>)
    requires AtTop(d) && d.pos == 1 && Sendable(it)
    requires BytesOf(rs) == StuffAll(Body(it.frame)) + it.noise
    ensures
      var p := Run(d, rs);
      && AtTop(p.dec) && p.dec.pos == 0 && p.dec.sum == 0
      && p.out == [Verdict(it.frame, d.sum)]
  {
    var body := Body(it.frame);
    AcceptBody(d, it.frame);
    var z, w := CutRun(d, rs, StuffAll(body), it.noise);
    FeedBody(d, body, z);
    SkipNoise(AcceptAll(d, body).dec, w);
    assert [Verdict(it.frame, d.sum)] + [] == [Verdict(it.frame, d.sum)];
  }

  lemma ItemParts(it: Item)
    requires Sendable(it)
    ensures ItemBytes(it) == [START] + (StuffAll(Body(it.frame)) + it.noise)
  {
  }

  /** One frame and the noise after it, from any state: a pending escape eats the start byte
      and with it the frame, otherwise the frame is judged with the old residue. */
  lemma FeedItem(d: Decoder, it: Item, rs: seq<Read>)
    requires d.Valid() && !d.inEscape && Sendable(it)
    requires BytesOf(rs) == ItemBytes(it)
    ensures
      var p := Run(d, rs);
      && AtTop(p.dec) && p.dec.pos == 0
      && p.dec.sum == (if d.escape then d.sum else 0)
      && p.out == if d.escape then [] else [Verdict(it.frame, d.sum)]
  {
    var body := Body(it.frame);
    ItemParts(it);
    var x, y := CutRun(d, rs, [START], StuffAll(body) + it.noise);
    FeedStart(d, x);
    var d1 := Run(d, x).dec;
    NoStartInside(body);
    if d.escape {
      SkipNoise(d1, y);
    } else {
      FeedRest(d1, it, y);
    }
  }

  /** From a clean state between frames, every frame comes out. */
  lemma {:induction false} CleanRun(d: Decoder, items: seq<Item>, rs: seq<Read>)
    requires AtTop(d) && d.sum == 0
    requires AllSendable(items)
    requires BytesOf(rs) == Stream(items)
    ensures Run(d, rs).out == AllAccepted(items)
    decreases |items|
  {
    if items == [] {
      RunQuiet(d, rs);
    } else {
      var it := items[0];
      var x, y := CutRun(d, rs, ItemBytes(it), Stream(items[1..]));
      FeedItem(d, it, x);
      CleanRun(Run(d, x).dec, items[1..], y);
    }
  }

  /** Without a pending escape the first frame is judged with the residue, the rest are clean. */
  lemma StabilisesAtOnce(d: Decoder, items: seq<Item>, rs: seq<Read>)
    requires AtTop(d) && AllSendable(items) && items != []
    requires BytesOf(rs) == Stream(items)
    ensures Run(d, rs).out == [Verdict(items[0].frame, d.sum)] + AllAccepted(items[1..])
  {
    var x, y := CutRun(d, rs, ItemBytes(items[0]), Stream(items[1..]));
    FeedItem(d, items[0], x);
    CleanRun(Run(d, x).dec, items[1..], y);
  }

  /** Self-stabilisation, exactly. From ANY decoder state between calls - any position up to
      129, any residue, any escape flag - and for any interruption of the stream, one frame is
      swallowed if the escape flag was set, the next one is accepted precisely when the residue
      was zero, and all the others are accepted. */
  lemma Stabilises(d: Decoder, items: seq<Item>, rs: seq<Read>)
    requires d.Valid() && !d.inEscape && AllSendable(items)
    requires BytesOf(rs) == Stream(items)
    ensures
      var lost := if d.escape then 1 else 0;
      Run(d, rs).out ==
        if |items| <= lost then []
        else [Verdict(items[lost].frame, d.sum)] + AllAccepted(items[lost + 1..])
  {
    if items == [] {
      RunQuiet(d, rs);
    } else if !d.escape {
      StabilisesAtOnce(d, items, rs);
    } else {
      var x, y := CutRun(d, rs, ItemBytes(items[0]), Stream(items[1..]));
      FeedItem(d, items[0], x);
      var d1 := Run(d, x).dec;
      if |items| == 1 {
        RunQuiet(d1, y);
      } else {
        StabilisesAtOnce(d1, items[1..], y);
        assert items[1..][1..] == items[2..];
        assert [] + Run(d1, y).out == Run(d1, y).out;
      }
    }
  }

  // ---------- Frames of any length ----------

  /** A length that the buffer has no room for, or none at all. */
  predicate NoRoom(d: Decoder) {
    d.Valid() && d.pos >= 4 && (d.PacketLength() == 0 || d.PacketLength() + 3 > MAX_FRAME_DATA_SIZE)
  }

  lemma {:induction false} NeverAccepted(d: Decoder, bs: seq<byte>)
    requires NoRoom(d)
    ensures Inside(d, bs) && forall o | o in AcceptAll(d, bs).out :: o == TooLong
    decreases |bs|
  {
    if bs != [] {
      NeverAccepted(Accept(d, bs[0]).dec, bs[1..]);
    }
  }

  lemma LongBody(d: Decoder, f: Frame)
    requires d.Valid() && d.pos == 1 && MAX_DATA < |f.data| <= 255
    ensures Inside(d, Body(f)) && forall o | o in AcceptAll(d, Body(f)).out :: o == TooLong
  {
    var len, tail := |f.data| + 1, f.data + [Checksum(f)];
    assert Body(f) == [(len / 256) % 256] + ([len % 256] + ([f.api] + tail));
    var d1 := Accept(d, (len / 256) % 256).dec;
    var d2 := Accept(d1, len % 256).dec;
    var d3 := Accept(d2, f.api).dec;
    NeverAccepted(d3, tail);
    AcceptOne(d2, f.api, tail);
    AcceptOne(d1, len % 256, [f.api] + tail);
    AcceptOne(d, (len / 256) % 256, [len % 256] + ([f.api] + tail));
  }

  /** A frame of any size, read from power-up with any interruptions: it is accepted as it was sent
      exactly when its data has at most 124 bytes, and otherwise nothing is accepted. */
  lemma FrameAcceptedIff(f: Frame, rs: seq<Read>)
    requires |f.data| <= 255 && BytesOf(rs) == EncodeFrame(f)
    ensures
      var out := Run(Init(), rs).out;
      if |f.data| <= MAX_DATA then out == [Accepted(f.api, f.data, Checksum(f))] else forall o | o in out :: o == TooLong
  {
    var body := Body(f);
    var x, y := CutRun(Init(), rs, [START], StuffAll(body));
    FeedStart(Init(), x);
    var d := Run(Init(), x).dec;
    if |f.data| <= MAX_DATA {
      AcceptBody(d, f);
    } else {
      LongBody(d, f);
    }
    FeedBody(d, body, y);
    assert Run(Init(), rs).out == AcceptAll(d, body).out;
  }

  function ItemsOf(requests: seq<Request>, noise: seq<seq<byte>>): (items: seq<Item>)
    requires |noise| == |requests|
    ensures |items| == |requests|
    ensures forall i | 0 <= i < |items| :: items[i] == Item(RequestFrame(requests[i]), noise[i])
  {
    seq(|requests|, i requires 0 <= i < |requests| => Item(RequestFrame(requests[i]), noise[i]))
  }

  /** Stream round trip: the bytes of any list of requests, with noise before, between and
      after them, interrupted anywhere, give back exactly those frames in order, one from each call
      of readPacket that ends with an outcome. */
  lemma StreamRoundTrip(requests: seq<Request>, lead: seq<byte>, noise: seq<seq<byte>>, rs: seq<Read>)
    requires |noise| == |requests| && START !in lead
    requires forall i | 0 <= i < |requests| :: |requests[i].payload| <= 111 && START !in noise[i]
    requires BytesOf(rs) == lead + Stream(ItemsOf(requests, noise))
    ensures
      var out := Calls(Init(), rs).out;
      && |out| == |requests|
      && forall i | 0 <= i < |requests| ::
           out[i] == Accepted(requests[i].api, FrameData(requests[i]), Checksum(RequestFrame(requests[i])))
  {
    var items := ItemsOf(requests, noise);
    var x, y := CutRun(Init(), rs, lead, Stream(items));
    SkipNoise(Init(), x);
    CleanRun(Init(), items, y);
    CallsAreOneRun(Init(), rs);
  }
}
