/** The flags byte of an MQTT-SN message, read bit by bit. */
module SnFlags {
  import opened Bytes

  /** The flags of section 5.3.4 of MQTT-SN v1.2 that a PUBLISH has. */
  datatype Flags = Flags(dup: bool, qos: int, retain: bool, idType: int)

  function FlagsIn(b: byte): Flags {
    Flags(HasBit(b, 128), SnQos(b), HasBit(b, 16), b % 4)
  }

  /** A flags byte, bit by bit: DUP, QoS, RETAIN, Will, clean and the type. */
  function Joined(d: int, q: int, r: int, w: int, c: int, t: int): int {
    128 * d + 32 * q + 16 * r + 8 * w + 4 * c + t
  }

  predicate AreBits(d: int, q: int, r: int, w: int, c: int, t: int) {
    0 <= d <= 1 && 0 <= q <= 3 && 0 <= r <= 1 && 0 <= w <= 1 && 0 <= c <= 1 && 0 <= t <= 3
  }

  ghost predicate IsJoined(b: byte, d: int, q: int, r: int, w: int, c: int, t: int) {
    AreBits(d, q, r, w, c, t) && b == Joined(d, q, r, w, c, t)
  }

  lemma Half(n: nat) returns (h: nat, bit: int)
    ensures n == 2 * h + bit && 0 <= bit <= 1
  {
    h, bit := n / 2, n % 2;
  }

  lemma SplitFlags(b: byte) returns (d: int, q: int, r: int, w: int, c: int, t: int)
    ensures IsJoined(b, d, q, r, w, c, t)
  {
    var b0, b1, q0, q1;
    var n: nat := b;
    n, b0 := Half(n);
    n, b1 := Half(n);
    n, c := Half(n);
    n, w := Half(n);
    n, r := Half(n);
    n, q0 := Half(n);
    d, q1 := Half(n);
    q, t := 2 * q1 + q0, 2 * b1 + b0;
  }

  lemma Shifts(b: byte, d: int, q: int, r: int, w: int, c: int, t: int)
    requires IsJoined(b, d, q, r, w, c, t)
    ensures b / 128 == d && b / 32 == 4 * d + q && b / 16 == 8 * d + 2 * q + r
    ensures b / 8 == 16 * d + 4 * q + 2 * r + w && b / 4 == 32 * d + 8 * q + 4 * r + 2 * w + c
    ensures b % 4 == t && b % 32 == 16 * r + 8 * w + 4 * c + t && b % 2 == t % 2
  {
  }

  lemma Rest(n: nat, a: nat, m: nat, v: nat)
    requires m in {2, 4} && n == m * a + v && v < m
    ensures n % m == v
  {
  }

  lemma ReadBits(b: byte, d: int, q: int, r: int, w: int, c: int, t: int)
    requires IsJoined(b, d, q, r, w, c, t)
    ensures (b / 128) % 2 == d && (b / 32) % 4 == q && (b / 16) % 2 == r && (b / 8) % 2 == w && (b / 4) % 2 == c
  {
    Shifts(b, d, q, r, w, c, t);
    Rest(b / 128, 0, 2, d);
    Rest(b / 32, d, 4, q);
    Rest(b / 16, 4 * d + q, 2, r);
    Rest(b / 8, 8 * d + 2 * q + r, 2, w);
    Rest(b / 4, 16 * d + 4 * q + 2 * r + w, 2, c);
  }

  lemma ReadMasked(b: byte, d: int, q: int, r: int, w: int, c: int, t: int)
    requires IsJoined(b, d, q, r, w, c, t)
    ensures IsJoined(Mask0xf3(b), d, q, r, 0, 0, t) && IsJoined(ClearSnQos(b), d, 0, r, w, c, t)
  {
    Shifts(b, d, q, r, w, c, t);
  }

  lemma ReadFlags(b: byte, d: int, q: int, r: int, w: int, c: int, t: int)
    requires IsJoined(b, d, q, r, w, c, t)
    ensures FlagsIn(b) == Flags(d == 1, q, r == 1, t)
    ensures (HasBit(b, 8) <==> w == 1) && (HasBit(b, 4) <==> c == 1) && (HasBit(b, 1) <==> t % 2 == 1)
  {
    Shifts(b, d, q, r, w, c, t);
    ReadBits(b, d, q, r, w, c, t);
  }

  lemma MaskSays(b: byte)
    ensures FlagsIn(Mask0xf3(b)) == FlagsIn(b) && !HasBit(Mask0xf3(b), 8) && !HasBit(Mask0xf3(b), 4)
  {
    var d, q, r, w, c, t := SplitFlags(b);
    ReadFlags(b, d, q, r, w, c, t);
    ReadMasked(b, d, q, r, w, c, t);
    ReadFlags(Mask0xf3(b), d, q, r, 0, 0, t);
  }

  lemma SetBitSays(b: byte)
    ensures FlagsIn(SetBit(b, 128)) == FlagsIn(b).(dup := true)
    ensures FlagsIn(SetBit(b, 16)) == FlagsIn(b).(retain := true)
  {
    var d, q, r, w, c, t := SplitFlags(b);
    ReadFlags(b, d, q, r, w, c, t);
    ReadFlags(SetBit(b, 128), 1, q, r, w, c, t);
    ReadFlags(SetBit(b, 16), d, q, 1, w, c, t);
  }

  /** The type with its low bit set. */
  function Odd(t: int): int {
    if t == 0 then 1 else if t == 2 then 3 else t
  }

  lemma SetLow(b: byte)
    ensures SetBit(b, 1) == if b % 2 == 1 then b else b + 1
  {
    assert b / 1 == b;
  }

  lemma OddIs(t: int)
    requires 0 <= t <= 3
    ensures Odd(t) == if t % 2 == 1 then t else t + 1
  {
  }

  lemma LowBit(b: byte, d: int, q: int, r: int, w: int, c: int, t: int)
    requires IsJoined(b, d, q, r, w, c, t)
    ensures IsJoined(SetBit(b, 1), d, q, r, w, c, Odd(t))
  {
    Shifts(b, d, q, r, w, c, t);
    SetLow(b);
    OddIs(t);
  }

  lemma LowBitSays(b: byte, clear: byte, f: byte)
    requires clear == ClearSnQos(b) && f == SetBit(clear, 1)
    ensures FlagsIn(f) == FlagsIn(b).(qos := 0, idType := Odd(FlagsIn(b).idType))
  {
    var d, q, r, w, c, t := SplitFlags(b);
    ReadFlags(b, d, q, r, w, c, t);
    ReadMasked(b, d, q, r, w, c, t);
    LowBit(clear, d, 0, r, w, c, t);
    ReadFlags(f, d, 0, r, w, c, Odd(t));
  }
}
