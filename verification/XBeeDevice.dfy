/** Class XBee: the decoder and the sender as they run, over a serial port that may have
    nothing to read. */
module XBeeDevice {
  import opened Bytes
  import opened XBeeFraming

  const NO_ERROR: byte := 0
  const CHECKSUM_FAILURE: byte := 1
  const PACKET_EXCEEDS_BYTE_ARRAY_LENGTH: byte := 2

  class XBee {
    var pos: nat
    var escape: bool
    var checksumTotal: byte
    // the XBResponse being filled
    var msbLength: byte
    var lsbLength: byte
    var apiId: byte
    var checksum: byte
    var frameLength: byte
    var complete: bool
    var errorCode: byte
    const frameData: array<byte>
    // the serial port
    var input: seq<Read>
    var sent: seq<byte>

    ghost predicate Valid()
      reads this, frameData
    {
      Dec().Valid()
    }

    ghost function Dec(): Decoder
      reads this, frameData
    {
      Decoder(pos, escape, false, checksumTotal, msbLength, lsbLength, apiId, frameData[..])
    }

    constructor (port: seq<Read>)
      ensures Valid() && fresh(frameData) && Dec() == Init()
      ensures input == port && sent == [] && !complete && errorCode == NO_ERROR
    {
      pos, escape, checksumTotal := 0, false, 0;
      msbLength, lsbLength, apiId, checksum, frameLength := 0, 0, 0, 0, 0;
      complete, errorCode := false, NO_ERROR;
      input, sent := port, [];
      frameData := new byte[MAX_FRAME_DATA_SIZE](_ => 0);
    }

    /** A read that finds nothing uses up one `Nothing`, if there is one. */
    method ReadByte() returns (ok: bool, b: byte)
      modifies this`input
      ensures input == (if old(input) == [] then [] else old(input)[1..])
      ensures ok <==> old(input) != [] && old(input)[0].Got?
      ensures ok ==> b == old(input)[0].b
    {
      ok, b := false, 0;
      if input != [] {
        match input[0] {
          case Got(c) => ok, b := true, c;
          case Nothing =>
        }
        input := input[1..];
      }
    }

    /** What a return of readPacket leaves in the response. */
    ghost predicate Reported(out: seq<Outcome>, wasComplete: bool, oldError: byte)
      requires |out| <= 1
      reads this, frameData
    {
      if out == [] then complete == wasComplete && errorCode == oldError
      else match out[0]
        case Accepted(api, data, k) =>
          && complete && errorCode == NO_ERROR
          && apiId == api && frameLength == |data| && checksum == k
          && |data| <= frameData.Length && frameData[..|data|] == data
        case ChecksumFailure => complete == wasComplete && errorCode == CHECKSUM_FAILURE
        case TooLong => complete == wasComplete && errorCode == PACKET_EXCEEDS_BYTE_ARRAY_LENGTH
    }

    method ReadPacket()
      requires Valid()
      modifies this, frameData
      ensures Valid() && sent == old(sent)
      ensures
        var c := ReadCall(old(Dec()), old(input));
        && Dec() == c.dec && input == c.rest
        && Reported(c.out, old(complete), old(errorCode))
    {
      ghost var before := input;
      var ok, bd := ReadByte();
      if ok {
        assert before == [Got(bd)] + input;
      }
      while ok
        invariant Valid() && sent == old(sent)
        invariant complete == old(complete) && errorCode == old(errorCode)
        invariant ReadCall(old(Dec()), old(input)) ==
          if ok then ReadCall(Dec(), [Got(bd)] + input) else Call(Dec(), input, [])
        decreases |input| + if ok then 1 else 0
      {
        var leaves, out := OnByte(bd);
        if leaves {
          return;
        }
        before := input;
        ok, bd := ReadByte();
        if ok {
          assert before == [Got(bd)] + input;
        }
      }
    }

    /** The loop body of readPacket: start byte, escape byte with its inner read, pending
        escape, switch. */
    method OnByte(b: byte) returns (leaves: bool, ghost out: seq<Outcome>)
      requires Valid()
      modifies this, frameData
      ensures Valid() && sent == old(sent) && |input| <= |old(input)|
      ensures |out| <= 1 && (leaves <==> out != [])
      ensures Reported(out, old(complete), old(errorCode))
      ensures ReadCall(old(Dec()), [Got(b)] + old(input)) ==
        if leaves then Call(Dec(), input, out) else ReadCall(Dec(), input)
    {
      ghost var d, rs := Dec(), input;
      ReadCallStep(d, Got(b), rs);
      var bd := b;
      ghost var s := OnRead(d, Got(b));
      if pos > 0 && bd == START {
        pos := 0;
      }
      if pos > 0 && bd == ESCAPE {
        var ok;
        ok, bd := ReadByte();
        if rs != [] {
          assert rs == [rs[0]] + input;
          ReadCallStep(s.dec, rs[0], input);
        }
        if ok {
          s := OnRead(s.dec, Got(bd));
          bd := Flip(bd);
        } else {
          escape := true;
          assert Dec() == OnRead(s.dec, Nothing).dec;
          return false, [];
        }
      }
      assert s == Unescape(Dec(), bd);
      if escape {
        bd := Flip(bd);
        escape := false;
      }
      assert s == Accept(Dec(), bd);
      out := s.out;
      leaves := Switch(bd);
    }

    /** The checksum update and the switch on _pos; true when readPacket returns from it. */
    method Switch(bd: byte) returns (leaves: bool)
      requires Valid()
      modifies this, frameData
      ensures Valid() && input == old(input) && sent == old(sent)
      ensures
        var s := Accept(old(Dec()), bd);
        && Dec() == s.dec && (leaves <==> s.out != [])
        && Reported(s.out, old(complete), old(errorCode))
    {
      leaves := false;
      if pos >= API_ID_INDEX {
        checksumTotal := (checksumTotal + bd) % 256;
      }
      if pos == 0 {
        if bd == START {
          pos := pos + 1;
        }
      } else if pos == 1 {
        msbLength, pos := bd, pos + 1;
      } else if pos == 2 {
        lsbLength, pos := bd, pos + 1;
      } else if pos == 3 {
        apiId, pos := bd, pos + 1;
      } else if pos > MAX_FRAME_DATA_SIZE {
        errorCode := PACKET_EXCEEDS_BYTE_ARRAY_LENGTH;
        leaves := true;
      } else if pos == (msbLength * 256) % 256 + lsbLength + 3 {
        if checksumTotal == 0xff {
          checksum, complete, errorCode := bd, true, NO_ERROR;
        } else {
          errorCode := CHECKSUM_FAILURE;
        }
        frameLength := pos - 4;
        pos, checksumTotal := 0, 0;
        leaves := true;
      } else {
        frameData[pos - 4] := bd;
        pos := pos + 1;
      }
    }

    method WriteByte(b: byte)
      modifies this`sent
      ensures sent == old(sent) + [b]
    {
      sent := sent + [b];
    }

    method SendByte(b: byte, escaped: bool)
      modifies this`sent
      ensures sent == old(sent) + if escaped then Stuff(b) else [b]
    {
      if escaped && (b == START || b == ESCAPE || b == XON || b == XOFF) {
        WriteByte(ESCAPE);
        WriteByte(Flip(b));
      } else {
        WriteByte(b);
      }
    }

    method SendRequest(r: Request)
      modifies this`sent
      ensures sent == old(sent) + EncodeFrame(RequestFrame(r))
    {
      var f := RequestFrame(r);
      var len := |f.data| + 1;
      var hi: byte, lo: byte := (len / 256) % 256, len % 256;
      SendByte(START, false);
      ghost var w := sent;
      SendHead(hi, lo, r.api);
      ghost var body := [hi, lo, r.api];
      var sum := SendData(f, w, body);
      var checksum: byte := 0xff - sum;
      SendByte(checksum, true);
      assert checksum == Checksum(f);
      FrameInParts(f, body, old(sent), w);
    }

    method SendHead(hi: byte, lo: byte, api: byte)
      modifies this`sent
      ensures sent == old(sent) + StuffAll([hi, lo, api])
    {
      ghost var w := sent;
      SendByte(hi, true);
      SendByte(lo, true);
      SendByte(api, true);
      StuffThree(hi, lo, api);
      assert sent == w + (Stuff(hi) + Stuff(lo) + Stuff(api));
    }

    /** The loop over getFrameData(i), sending and summing. */
    method SendData(f: Frame, ghost w: seq<byte>, ghost body: seq<byte>) returns (sum: byte)
      requires sent == w + StuffAll(body)
      modifies this`sent
      ensures sent == w + StuffAll(body + f.data)
      ensures sum == (f.api + Sum(f.data)) % 256
    {
      sum := f.api;
      assert body + f.data[..0] == body;
      for i := 0 to |f.data|
        invariant sum == (f.api + Sum(f.data[..i])) % 256
        invariant sent == w + StuffAll(body + f.data[..i])
      {
        SendByte(f.data[i], true);
        sum := (sum + f.data[i]) % 256;
        StuffNext(w, body, f.data, i);
        SumNext(f.api, f.data, i);
      }
      assert f.data[..|f.data|] == f.data;
    }
  }

  lemma StuffNext(w: seq<byte>, body: seq<byte>, data: seq<byte>, i: nat)
    requires i < |data|
    ensures w + StuffAll(body + data[..i]) + Stuff(data[i]) == w + StuffAll(body + data[..i + 1])
  {
    StuffSnoc(body + data[..i], data[i]);
    assert body + data[..i + 1] == body + data[..i] + [data[i]];
  }

  lemma SumNext(api: byte, data: seq<byte>, i: nat)
    requires i < |data|
    ensures ((api + Sum(data[..i])) % 256 + data[i]) % 256 == (api + Sum(data[..i + 1])) % 256
  {
    SumAppend(data[..i], [data[i]]);
    assert data[..i + 1] == data[..i] + [data[i]];
  }

  lemma FrameInParts(f: Frame, head: seq<byte>, before: seq<byte>, w: seq<byte>)
    requires |f.data| <= 255 && w == before + [START] && Body(f) == head + f.data + [Checksum(f)]
    ensures w + StuffAll(head + f.data) + Stuff(Checksum(f)) == before + EncodeFrame(f)
  {
    StuffSnoc(head + f.data, Checksum(f));
  }

  lemma StuffSnoc(bs: seq<byte>, b: byte)
    ensures StuffAll(bs + [b]) == StuffAll(bs) + Stuff(b)
  {
    StuffOne(b);
    StuffAllAppend(bs, [b]);
  }

  lemma StuffOne(b: byte)
    ensures StuffAll([b]) == Stuff(b)
  {
    assert [b][1..] == [];
    assert Stuff(b) + [] == Stuff(b);
  }

  lemma StuffThree(a: byte, b: byte, c: byte)
    ensures StuffAll([a, b, c]) == Stuff(a) + Stuff(b) + Stuff(c)
  {
    StuffOne(a);
    StuffOne(b);
    StuffOne(c);
    StuffAllAppend([a], [b]);
    StuffAllAppend([a] + [b], [c]);
    assert [a] + [b] + [c] == [a, b, c];
  }

  lemma ReadCallStep(d: Decoder, r: Read, rs: seq<Read>)
    requires d.Valid() && (r.Got? || d.inEscape)
    ensures ReadCall(d, [r] + rs) ==
      (var s := OnRead(d, r); if s.out != [] then Call(s.dec, rs, s.out) else ReadCall(s.dec, rs))
  {
    assert ([r] + rs)[1..] == rs;
  }
}
