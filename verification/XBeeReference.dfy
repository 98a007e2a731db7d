/** readPacket against a reader that keeps whole frames instead of counters and a buffer, and
    what happens to a stream when the reader is interrupted. */
module XBeeReference {
  import opened Bytes
  import opened XBeeFraming

  // ---------- The reference reader ----------

  /** `cur` is every unescaped byte since the start byte; `carry` is the total of the bytes of
      frames cut short by a start byte since the last complete frame. */
  datatype Listener = Listener(active: bool, cur: seq<byte>, carry: nat, escape: bool, inEscape: bool)

  datatype Heard = Heard(st: Listener, out: seq<Outcome>)

  /** The bytes the checksum covers: API id, data, checksum. */
  function Checked(cur: seq<byte>): seq<byte> {
    if |cur| <= 2 then [] else cur[2..]
  }

  /** Two length bytes, API id, at least a checksum; the low length byte counts the API id and
      the data. The high length byte is not looked at. */
  predicate CompleteFrame(cur: seq<byte>) {
    4 <= |cur| <= 128 && |cur| - 3 == cur[1]
  }

  function Hear(t: Listener, b: byte): Heard {
    if !t.active then
      Heard(if b == START then t.(active := true, cur := []) else t, [])
    else
      var cur := t.cur + [b];
      if |cur| > 128 then Heard(t.(cur := cur), [TooLong])
      else if CompleteFrame(cur) then
        Heard(t.(active := false, cur := [], carry := 0),
              [if (t.carry + Sum(Checked(cur))) % 256 == 0xff
               then Accepted(cur[2], cur[3..|cur| - 1], b) else ChecksumFailure])
      else Heard(t.(cur := cur), [])
  }

  function HearEscaped(t: Listener, b: byte): Heard {
    if t.escape then Hear(t.(escape := false), Flip(b)) else Hear(t, b)
  }

  function Aborted(t: Listener): Listener {
    t.(active := false, cur := [], carry := t.carry + Sum(Checked(t.cur)))
  }

  function HearRead(t: Listener, r: Read): Heard {
    match r
    case Nothing =>
      Heard(if t.inEscape then t.(inEscape := false, escape := true) else t, [])
    case Got(b) =>
      if t.inEscape then HearEscaped(t.(inEscape := false), Flip(b))
      else if t.active && b == START then
        HearEscaped(Aborted(t), b)
      else if t.active && b == ESCAPE then Heard(t.(inEscape := true), [])
      else HearEscaped(t, b)
  }

  function HearAll(t: Listener, rs: seq<Read>): Heard
    decreases |rs|
  {
    if rs == [] then Heard(t, [])
    else
      var s := HearRead(t, rs[0]);
      var u := HearAll(s.st, rs[1..]);
      Heard(u.st, s.out + u.out)
  }

  const Fresh := Listener(false, [], 0, false, false)

  // ---------- The decoder refines it ----------

  predicate Agrees(d: Decoder, t: Listener) {
    && d.Valid()
    && d.escape == t.escape && d.inEscape == t.inEscape
    && d.sum == (t.carry + Sum(Checked(t.cur))) % 256
    && (!t.active ==> d.pos == 0 && t.cur == [])
    && (t.active ==> d.pos == if |t.cur| < 128 then |t.cur| + 1 else 129)
    && (|t.cur| > 1 ==> d.lsb == t.cur[1])
    && (|t.cur| > 2 ==> d.api == t.cur[2])
    && (3 <= |t.cur| <= 128 ==> d.buf[..|t.cur| - 3] == t.cur[3..])
  }

  lemma CheckedGrows(cur: seq<byte>, b: byte)
    ensures Sum(Checked(cur + [b])) == Sum(Checked(cur)) + (if |cur| >= 2 then b else 0)
  {
    if |cur| >= 2 {
      assert Checked(cur + [b]) == Checked(cur) + [b];
      SumAppend(Checked(cur), [b]);
    }
  }

  lemma AcceptAgrees(d: Decoder, t: Listener, b: byte)
    requires Agrees(d, t)
    ensures Accept(d, b).out == Hear(t, b).out && Agrees(Accept(d, b).dec, Hear(t, b).st)
  {
    if t.active {
      if |t.cur| < 3 {
        HeaderAgrees(d, t, b);
      } else {
        DataAgrees(d, t, b);
      }
    }
  }

  lemma HeaderAgrees(d: Decoder, t: Listener, b: byte)
    requires Agrees(d, t) && t.active && |t.cur| < 3
    ensures Accept(d, b).out == Hear(t, b).out && Agrees(Accept(d, b).dec, Hear(t, b).st)
  {
    CheckedGrows(t.cur, b);
    SumGrows(t.carry, Sum(Checked(t.cur)), b);
    var cur := t.cur + [b];
    assert !CompleteFrame(cur);
    assert Hear(t, b) == Heard(t.(cur := cur), []);
    assert |t.cur| == 2 ==> (d.sum + b) % 256 == (t.carry + Sum(Checked(cur))) % 256;
    assert |cur| == 3 ==> cur[3..] == [] == d.buf[..0];
  }

  lemma DataAgrees(d: Decoder, t: Listener, b: byte)
    requires Agrees(d, t) && t.active && |t.cur| >= 3
    ensures Accept(d, b).out == Hear(t, b).out && Agrees(Accept(d, b).dec, Hear(t, b).st)
  {
    CheckedGrows(t.cur, b);
    SumGrows(t.carry, Sum(Checked(t.cur)), b);
    if |t.cur| >= 128 {
      TooLongAgrees(d, t, b);
    } else if CompleteFrame(t.cur + [b]) {
      CompleteAgrees(d, t, b);
    } else {
      MoreAgrees(d, t, b);
    }
  }

  lemma SumGrows(carry: int, sum: int, b: int)
    ensures ((carry + sum) % 256 + b) % 256 == (carry + (sum + b)) % 256
  {
  }

  lemma TooLongAgrees(d: Decoder, t: Listener, b: byte)
    requires Agrees(d, t) && t.active && |t.cur| >= 128
    requires (d.sum + b) % 256 == (t.carry + Sum(Checked(t.cur + [b]))) % 256
    ensures Accept(d, b).out == Hear(t, b).out && Agrees(Accept(d, b).dec, Hear(t, b).st)
  {
    assert Hear(t, b) == Heard(t.(cur := t.cur + [b]), [TooLong]);
    assert Accept(d, b) == Progress(d.(sum := (d.sum + b) % 256), [TooLong]);
  }

  lemma CompleteAgrees(d: Decoder, t: Listener, b: byte)
    requires Agrees(d, t) && t.active && 3 <= |t.cur| < 128 && CompleteFrame(t.cur + [b])
    requires (d.sum + b) % 256 == (t.carry + Sum(Checked(t.cur + [b]))) % 256
    ensures Accept(d, b).out == Hear(t, b).out && Agrees(Accept(d, b).dec, Hear(t, b).st)
  {
    var cur := t.cur + [b];
    assert cur[3..|cur| - 1] == t.cur[3..] == d.buf[..d.pos - 4];
    assert Accept(d, b).dec == d.(pos := 0, sum := 0);
  }

  lemma MoreAgrees(d: Decoder, t: Listener, b: byte)
    requires Agrees(d, t) && t.active && 3 <= |t.cur| < 128 && !CompleteFrame(t.cur + [b])
    requires (d.sum + b) % 256 == (t.carry + Sum(Checked(t.cur + [b]))) % 256
    ensures Accept(d, b).out == Hear(t, b).out && Agrees(Accept(d, b).dec, Hear(t, b).st)
  {
    var cur := t.cur + [b];
    assert cur[3..] == t.cur[3..] + [b];
    assert Accept(d, b) == Progress(d.(sum := (d.sum + b) % 256, buf := d.buf[d.pos - 4 := b], pos := d.pos + 1), []);
    assert d.buf[d.pos - 4 := b][..d.pos - 3] == d.buf[..d.pos - 4] + [b];
  }

  lemma EscapedAgrees(d: Decoder, t: Listener, b: byte)
    requires Agrees(d, t)
    ensures Unescape(d, b).out == HearEscaped(t, b).out && Agrees(Unescape(d, b).dec, HearEscaped(t, b).st)
  {
    AcceptAgrees(d.(escape := false), t.(escape := false), if d.escape then Flip(b) else b);
  }

  lemma AbortAgrees(d: Decoder, t: Listener)
    requires Agrees(d, t)
    ensures Agrees(d.(pos := 0), Aborted(t))
  {
    assert Checked([]) == [];
  }

  lemma OnReadAgrees(d: Decoder, t: Listener, r: Read)
    requires Agrees(d, t)
    ensures OnRead(d, r).out == HearRead(t, r).out && Agrees(OnRead(d, r).dec, HearRead(t, r).st)
  {
    if r.Got? {
      if d.inEscape {
        EscapedAgrees(d.(inEscape := false), t.(inEscape := false), Flip(r.b));
      } else if t.active && r.b == START {
        AbortAgrees(d, t);
        EscapedAgrees(d.(pos := 0), Aborted(t), r.b);
      } else if !(t.active && r.b == ESCAPE) {
        EscapedAgrees(d, t, r.b);
      }
    }
  }

  /** Any reads at all: counters, 8-bit residue and buffer give what whole frames give. */
  lemma {:induction false} RunRefinesReference(d: Decoder, t: Listener, rs: seq<Read>)
    requires Agrees(d, t)
    ensures Run(d, rs).out == HearAll(t, rs).out && Agrees(Run(d, rs).dec, HearAll(t, rs).st)
    decreases |rs|
  {
    if rs != [] {
      OnReadAgrees(d, t, rs[0]);
      RunRefinesReference(OnRead(d, rs[0]).dec, HearRead(t, rs[0]).st, rs[1..]);
    }
  }

  /** The byte that a successful read hands to the switch: flipped once in the escape branch, and
      once more if an escape flag was left over from an interrupted read. */
  function Unescaped(t: Listener, b: byte): byte {
    var c := if t.inEscape then Flip(b) else b;
    if t.escape then Flip(c) else c
  }

  /** This read puts a byte into a frame. */
  predicate Feeds(t: Listener, r: Read) {
    r.Got? && t.active && (t.inEscape || NoStartOrEscape(r.b))
  }

  predicate Accepting(out: seq<Outcome>) {
    out != [] && out[0].Accepted?
  }

  /** Acceptance on arbitrary bytes. After any reads from power-up, any next read yields an accepted
      frame exactly when it feeds a byte - plain or by an escape pair - that makes the bytes since
      the start byte a complete frame whose checked bytes, together with what aborted frames left
      behind, total 255 mod 256; and then the buffer hands out exactly the data bytes, as many as
      the length byte says, less one. */
  lemma AcceptanceSoundAndComplete(rs: seq<Read>, r: Read)
    ensures
      var t := HearAll(Fresh, rs).st;
      var out := OnRead(Run(Init(), rs).dec, r).out;
      Accepting(out) <==> Feeds(t, r) && GoodFrame(t.carry, t.cur + [Unescaped(t, r.b)])
    ensures
      var t := HearAll(Fresh, rs).st;
      var out := OnRead(Run(Init(), rs).dec, r).out;
      Accepting(out) ==> r.Got? && HandedOut(out[0], t.cur + [Unescaped(t, r.b)])
  {
    RunRefinesReference(Init(), Fresh, rs);
    var t := HearAll(Fresh, rs).st;
    OnReadAgrees(Run(Init(), rs).dec, t, r);
    HeardSoundAndComplete(t, r);
  }

  predicate GoodFrame(carry: nat, cur: seq<byte>) {
    CompleteFrame(cur) && (carry + Sum(cur[2..])) % 256 == 0xff
  }

  /** Length bytes, API id, data, checksum: nothing missing and nothing added. */
  predicate HandedOut(o: Outcome, cur: seq<byte>) {
    && o.Accepted? && |cur| >= 2 && cur == cur[..2] + [o.api] + o.data + [o.checksum]
    && cur[1] == |o.data| + 1 && |o.data| <= MAX_DATA
  }

  lemma HeardSoundAndComplete(t: Listener, r: Read)
    ensures Accepting(HearRead(t, r).out) <==> Feeds(t, r) && GoodFrame(t.carry, t.cur + [Unescaped(t, r.b)])
    ensures Accepting(HearRead(t, r).out) ==> r.Got? && HandedOut(HearRead(t, r).out[0], t.cur + [Unescaped(t, r.b)])
  {
    if Feeds(t, r) {
      HeardByte(t.(inEscape := false, escape := false), Unescaped(t, r.b));
    }
  }

  lemma HeardByte(t: Listener, b: byte)
    requires t.active
    ensures Accepting(Hear(t, b).out) <==> GoodFrame(t.carry, t.cur + [b])
    ensures Accepting(Hear(t, b).out) ==> HandedOut(Hear(t, b).out[0], t.cur + [b])
  {
    var cur := t.cur + [b];
    if CompleteFrame(cur) {
      assert cur == cur[..2] + [cur[2]] + cur[3..|cur| - 1] + [b];
    }
  }

  // ---------- The same in terms of the bytes alone ----------

  /** The raw bytes after the last start byte. */
  function FrameBytes(bs: seq<byte>): seq<byte> {
    if bs == [] || bs[|bs| - 1] == START then [] else FrameBytes(bs[..|bs| - 1]) + [bs[|bs| - 1]]
  }

  function BeforeLastStart(bs: seq<byte>): (r: seq<byte>)
    ensures bs != [] ==> |r| < |bs|
  {
    if bs == [] then []
    else if bs[|bs| - 1] == START then bs[..|bs| - 1]
    else BeforeLastStart(bs[..|bs| - 1])
  }

  predicate EndsInEscape(bs: seq<byte>) {
    bs != [] && bs[|bs| - 1] == ESCAPE
  }

  /** Escape bytes go, and a byte after one is flipped. */
  function Unstuff(bs: seq<byte>): seq<byte> {
    if bs == [] then []
    else
      var init, last := bs[..|bs| - 1], bs[|bs| - 1];
      if last == ESCAPE then Unstuff(init)
      else Unstuff(init) + [if EndsInEscape(init) then Flip(last) else last]
  }

  /** The frame that the length byte announces has ended within these bytes. */
  predicate Ended(cur: seq<byte>) {
    |cur| >= 4 && 1 <= cur[1] <= 125 && cur[1] <= |cur| - 3
  }

  function LastFrame(bs: seq<byte>): seq<byte> {
    Unstuff(FrameBytes(bs))
  }

  /** The checked bytes of the frames that were cut short by a start byte since the last one that
      ended. */
  function Residue(bs: seq<byte>): nat
    decreases |bs|
  {
    if START !in bs then 0
    else
      var pre := BeforeLastStart(bs);
      if START !in pre || Ended(LastFrame(pre)) then 0 else Residue(pre) + Sum(Checked(LastFrame(pre)))
  }

  /** The listener after well-escaped bytes. */
  predicate Tracks(t: Listener, bs: seq<byte>) {
    && !(t.inEscape && t.escape)
    && if t.active then
         && START in bs && !Ended(LastFrame(bs))
         && t.cur == LastFrame(bs) && t.carry == Residue(bs)
         && (t.inEscape || t.escape <==> EndsInEscape(bs))
       else
         && t.cur == [] && t.carry == 0 && !t.inEscape && !t.escape
         && (START in bs ==> Ended(LastFrame(bs)))
  }

  lemma Snoc(bs: seq<byte>, b: byte)
    ensures START in bs + [b] <==> START in bs || b == START
    ensures FrameBytes(bs + [b]) == if b == START then [] else FrameBytes(bs) + [b]
    ensures BeforeLastStart(bs + [b]) == if b == START then bs else BeforeLastStart(bs)
    ensures EndsInEscape(bs + [b]) <==> b == ESCAPE
  {
    assert (bs + [b])[..|bs|] == bs;
  }

  lemma FrameEndsInEscape(bs: seq<byte>)
    ensures EndsInEscape(FrameBytes(bs)) <==> EndsInEscape(bs)
  {
  }

  lemma LastFrameSnoc(bs: seq<byte>, b: byte)
    ensures LastFrame(bs + [b]) ==
      if b == START then []
      else if b == ESCAPE then LastFrame(bs)
      else LastFrame(bs) + [if EndsInEscape(bs) then Flip(b) else b]
  {
    Snoc(bs, b);
    FrameEndsInEscape(bs);
    var fs := FrameBytes(bs);
    assert (fs + [b])[..|fs|] == fs;
  }

  lemma ResidueSnoc(bs: seq<byte>, b: byte)
    ensures b != START ==> Residue(bs + [b]) == Residue(bs)
    ensures b == START ==> (Residue(bs + [b]) ==
      if START !in bs || Ended(LastFrame(bs)) then 0 else Residue(bs) + Sum(Checked(LastFrame(bs))))
  {
    Snoc(bs, b);
  }

  lemma TrackByte(t: Listener, bs: seq<byte>, b: byte)
    requires Tracks(t, bs) && (EndsInEscape(bs) ==> NoStartOrEscape(b))
    ensures Tracks(HearRead(t, Got(b)).st, bs + [b])
  {
    Snoc(bs, b);
    LastFrameSnoc(bs, b);
    ResidueSnoc(bs, b);
    if Feeds(t, Got(b)) {
      EndedSnoc(t.cur, Unescaped(t, b));
    }
  }

  lemma EndedSnoc(cur: seq<byte>, b: byte)
    requires !Ended(cur)
    ensures Ended(cur + [b]) <==> CompleteFrame(cur + [b])
  {
  }

  lemma {:induction false} TracksAll(t: Listener, bs: seq<byte>, rs: seq<Read>)
    requires Tracks(t, bs) && WellEscaped(bs + BytesOf(rs))
    ensures Tracks(HearAll(t, rs).st, bs + BytesOf(rs))
    decreases |rs|
  {
    if rs == [] {
      assert bs + BytesOf(rs) == bs;
    } else {
      match rs[0]
      case Nothing =>
        assert BytesOf(rs) == BytesOf(rs[1..]);
        TracksAll(HearRead(t, Nothing).st, bs, rs[1..]);
      case Got(b) =>
        var all := bs + BytesOf(rs);
        assert all == (bs + [b]) + BytesOf(rs[1..]);
        assert all[|bs|] == b && (bs != [] ==> all[|bs| - 1] == bs[|bs| - 1]);
        TrackByte(t, bs, b);
        TracksAll(HearRead(t, Got(b)).st, bs + [b], rs[1..]);
    }
  }

  /** Acceptance in terms of the bytes on the line. When no start or escape byte follows an escape
      byte, the read of `b` yields an accepted frame exactly when the unstuffed bytes after the last
      start byte are, with `b`, a complete frame with a good checksum, the residue of aborted frames
      added; and that frame is what is handed out. */
  lemma AcceptedBytesIff(rs: seq<Read>, b: byte)
    requires WellEscaped(BytesOf(rs) + [b])
    ensures
      var bs := BytesOf(rs) + [b];
      var out := OnRead(Run(Init(), rs).dec, Got(b)).out;
      && (Accepting(out) <==> START in bs && b != ESCAPE && GoodFrame(Residue(bs), LastFrame(bs)))
      && (Accepting(out) ==> HandedOut(out[0], LastFrame(bs)))
  {
    var bs := BytesOf(rs);
    assert WellEscaped(bs) by {
      assert forall i | 0 <= i < |bs| :: (bs + [b])[i] == bs[i];
    }
    assert EndsInEscape(bs) ==> NoStartOrEscape(b) by {
      assert (bs + [b])[|bs|] == b && (bs != [] ==> (bs + [b])[|bs| - 1] == bs[|bs| - 1]);
    }
    assert [] + bs == bs;
    TracksAll(Fresh, [], rs);
    var t := HearAll(Fresh, rs).st;
    Snoc(bs, b);
    LastFrameSnoc(bs, b);
    ResidueSnoc(bs, b);
    AcceptanceSoundAndComplete(rs, Got(b));
  }

  /** Unstuffing undoes stuffing. */
  lemma {:induction false} UnstuffOfStuff(bs: seq<byte>)
    ensures Unstuff(StuffAll(bs)) == bs && !EndsInEscape(StuffAll(bs))
    decreases |bs|
  {
    if bs != [] {
      var init, b := bs[..|bs| - 1], bs[|bs| - 1];
      UnstuffOfStuff(init);
      assert bs == init + [b];
      StuffAllAppend(init, [b]);
      assert [b][1..] == [];
      assert Stuff(b) + [] == Stuff(b);
      UnstuffOne(StuffAll(init), b);
    }
  }

  lemma UnstuffOne(bs: seq<byte>, b: byte)
    requires !EndsInEscape(bs)
    ensures Unstuff(bs + Stuff(b)) == Unstuff(bs) + [b] && !EndsInEscape(bs + Stuff(b))
  {
    if |Stuff(b)| == 1 {
      assert (bs + [b])[..|bs|] == bs;
    } else {
      var e := bs + [ESCAPE];
      assert bs + Stuff(b) == e + [Flip(b)];
      assert e[..|bs|] == bs && (e + [Flip(b)])[..|e|] == e;
      assert Flip(Flip(b)) == b;
    }
  }

  /** The frame buffer is 128 bytes long, and nothing is ever written at 125 or above. */
  lemma {:induction false} BufferTailUntouched(d: Decoder, rs: seq<Read>)
    requires d.Valid()
    ensures Run(d, rs).dec.pos <= 129
    ensures Run(d, rs).dec.buf[125..] == d.buf[125..]
    decreases |rs|
  {
    if rs != [] {
      var s := OnRead(d, rs[0]);
      assert s.dec.buf[125..] == d.buf[125..];
      BufferTailUntouched(s.dec, rs[1..]);
    }
  }

  // ---------- Interrupting the reader ----------

  function Whole(bs: seq<byte>): (rs: seq<Read>)
    ensures |rs| == |bs| && forall i | 0 <= i < |bs| :: rs[i] == Got(bs[i])
  {
    seq(|bs|, i requires 0 <= i < |bs| => Got(bs[i]))
  }

  predicate NoStartOrEscape(b: byte) {
    b != START && b != ESCAPE
  }

  /** No escape byte is followed directly by a start byte or by another escape byte. */
  predicate WellEscaped(bs: seq<byte>) {
    forall i | 0 <= i < |bs| - 1 && bs[i] == ESCAPE :: NoStartOrEscape(bs[i + 1])
  }

  /** Two readers of the same bytes: in step, or one was sent away just before the byte that the
      other is still waiting for. */
  predicate InStep(c: Decoder, w: Decoder) {
    && c.Valid() && w.Valid()
    && (c == w || (w.inEscape && !w.escape && c == w.(inEscape := false, escape := true)))
    && (c == w ==> !w.escape)
  }

  lemma StepTogether(c: Decoder, w: Decoder, b: byte)
    requires InStep(c, w) && (w.inEscape ==> NoStartOrEscape(b))
    ensures OnRead(c, Got(b)) == OnRead(w, Got(b))
    ensures InStep(OnRead(c, Got(b)).dec, OnRead(w, Got(b)).dec)
    ensures OnRead(w, Got(b)).dec.inEscape ==> b == ESCAPE
  {
    if w.inEscape && c != w {
      assert c.pos == w.pos;
      if w.pos == 0 {
        assert c.(escape := false) == w.(inEscape := false);
      }
      assert c.(escape := false) == w.(inEscape := false);
    }
  }

  lemma {:induction false} ChunksInStep(c: Decoder, w: Decoder, rs: seq<Read>)
    requires InStep(c, w) && WellEscaped(BytesOf(rs))
    requires w.inEscape && BytesOf(rs) != [] ==> NoStartOrEscape(BytesOf(rs)[0])
    ensures Settle(Run(c, rs)) == Settle(Run(w, Whole(BytesOf(rs))))
    decreases |rs|
  {
    if rs == [] {
    } else {
      var rest := BytesOf(rs[1..]);
      match rs[0]
      case Nothing =>
        assert BytesOf(rs) == rest;
        ChunksInStep(OnRead(c, Nothing).dec, w, rs[1..]);
      case Got(b) =>
        var bs := BytesOf(rs);
        assert bs == [b] + rest && bs[0] == b;
        assert Whole(bs)[1..] == Whole(rest);
        StepTogether(c, w, b);
        assert forall i | 0 <= i < |rest| :: rest[i] == bs[i + 1];
        assert WellEscaped(rest);
        if b == ESCAPE && rest != [] {
          assert NoStartOrEscape(bs[0 + 1]);
        }
        ChunksInStep(OnRead(c, Got(b)).dec, OnRead(w, Got(b)).dec, rs[1..]);
    }
  }

  /** Where the stream is cut does not matter: same outcomes, same state once the reader has
      come back empty-handed. */
  lemma ChunkingIndependent(d: Decoder, rs: seq<Read>, qs: seq<Read>)
    requires AtTop(d) && BytesOf(rs) == BytesOf(qs) && WellEscaped(BytesOf(rs))
    ensures Settle(Run(d, rs)) == Settle(Run(d, qs))
    ensures Calls(d, rs) == Calls(d, qs)
  {
    ChunksInStep(d, d, rs);
    ChunksInStep(d, d, qs);
    CallsAreOneRun(d, rs);
    CallsAreOneRun(d, qs);
  }

  /** sendByte(b, escape) */
  datatype SendByte = SendByte(b: byte, escape: bool)

  function Written(calls: seq<SendByte>): seq<byte> {
    if calls == [] then []
    else (if calls[0].escape then Stuff(calls[0].b) else [calls[0].b]) + Written(calls[1..])
  }

  /** The unescaped calls of sendRequest are the start bytes. Whatever is sent that way can be
      cut anywhere. */
  lemma {:induction false} SentStreamsAreWellEscaped(calls: seq<SendByte>)
    requires forall i | 0 <= i < |calls| && !calls[i].escape :: calls[i].b == START
    ensures WellEscaped(Written(calls))
    ensures Written(calls) != [] ==> Written(calls)[|Written(calls)| - 1] != ESCAPE
  {
    if calls != [] {
      SentStreamsAreWellEscaped(calls[1..]);
      var w := if calls[0].escape then Stuff(calls[0].b) else [calls[0].b];
      var rest := Written(calls[1..]);
      var bs := Written(calls);
      assert bs == w + rest && w[|w| - 1] != ESCAPE;
      forall i | 0 <= i < |bs| - 1 && bs[i] == ESCAPE
        ensures NoStartOrEscape(bs[i + 1])
      {
        if i >= |w| {
          assert rest[i - |w|] == ESCAPE && bs[i + 1] == rest[i - |w| + 1];
        }
      }
      if rest != [] {
        assert bs[|bs| - 1] == rest[|rest| - 1];
      }
    }
  }

  /** Exactly which cuts are harmless: inside a frame, cutting after an escape byte changes
      nothing if and only if the next byte is neither a start nor an escape byte. */
  lemma CutIsHarmlessIff(d: Decoder, b: byte)
    requires AtTop(d) && d.pos > 0
    ensures
      Settle(Run(d, [Got(ESCAPE), Nothing, Got(b)])) == Settle(Run(d, [Got(ESCAPE), Got(b)]))
      <==> NoStartOrEscape(b)
  {
    var e := d.(inEscape := true);
    var f := d.(escape := true);
    assert OnRead(d, Got(ESCAPE)) == Progress(e, []) && OnRead(e, Nothing) == Progress(f, []);
    RunTwo(d, Got(ESCAPE), Got(b));
    RunThree(d, Got(ESCAPE), Nothing, Got(b));
    var cut, whole := OnRead(f, Got(b)), OnRead(e, Got(b));
    assert whole == Accept(d, Flip(b));
    if b == START {
      assert cut == Progress(d.(pos := 0), []);
    } else if b == ESCAPE {
      assert cut == Progress(f.(inEscape := true), []) && OnRead(cut.dec, Nothing).dec.escape;
    } else {
      assert f.(escape := false) == d;
    }
  }

  lemma RunTwo(d: Decoder, a: Read, b: Read)
    requires d.Valid()
    ensures
      var s := OnRead(d, a);
      var t := OnRead(s.dec, b);
      Run(d, [a, b]) == Progress(t.dec, s.out + t.out)
  {
    var s := OnRead(d, a);
    var t := OnRead(s.dec, b);
    assert [a, b][1..] == [b] && [b][1..] == [];
    assert Run(s.dec, [b]) == Progress(t.dec, t.out + []);
    assert t.out + [] == t.out;
  }

  lemma RunThree(d: Decoder, a: Read, b: Read, c: Read)
    requires d.Valid()
    ensures
      var s := OnRead(d, a);
      var t := OnRead(s.dec, b);
      var u := OnRead(t.dec, c);
      Run(d, [a, b, c]) == Progress(u.dec, s.out + (t.out + u.out))
  {
    assert [a, b, c][1..] == [b, c];
    RunTwo(OnRead(d, a).dec, b, c);
  }
}
