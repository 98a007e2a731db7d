/** Bytes, 16-bit integers and the flag masks of the wire formats.
    C++ `uint8_t` and `uint16_t` values are integers with a range; every place where the
    original can wrap around says so with an explicit `%`. */
module Bytes {

  type byte = x: int | 0 <= x < 256
  type uint16 = x: int | 0 <= x < 65536

  type Str = seq<byte>

  /** setUint16 and getUint16: big-endian order. */
  function PutUint16(v: uint16): seq<byte> {
    [v / 256, v % 256]
  }

  function GetUint16(hi: byte, lo: byte): uint16 {
    hi * 256 + lo
  }

  function Sum(bs: seq<byte>): nat {
    if bs == [] then 0 else bs[0] + Sum(bs[1..])
  }

  lemma {:induction false} SumAppend(a: seq<byte>, b: seq<byte>)
    ensures Sum(a + b) == Sum(a) + Sum(b)
  {
    if a == [] {
      assert a + b == b;
    } else {
      SumAppend(a[1..], b);
      assert (a + b)[1..] == a[1..] + b;
    }
  }

  /** The buffer after a store of `bytes` at `pos`: what memcpy and the serializers do. */
  function Overwrite(buf: seq<byte>, pos: nat, bytes: seq<byte>): (r: seq<byte>)
    requires pos + |bytes| <= |buf|
    ensures |r| == |buf|
  {
    buf[..pos] + bytes + buf[pos + |bytes|..]
  }

  // Bit masks, as arithmetic. The lemmas at the end tie each of them to the C++ operator.

  /** b ^ 0x20 */
  function Flip(b: byte): byte {
    if (b / 32) % 2 == 1 then b - 32 else b + 32
  }

  /** (b >> k) & 1, where p is 2 to the power k */
  predicate HasBit(b: byte, p: int)
    requires p in {1, 2, 4, 8, 16, 32, 64, 128}
  {
    (b / p) % 2 == 1
  }

  /** b | p for a single bit p */
  function SetBit(b: byte, p: int): byte
    requires p in {1, 2, 4, 8, 16, 32, 64, 128}
  {
    if HasBit(b, p) then b else b + p
  }

  /** b & ~p for a single bit p */
  function ClearBit(b: byte, p: int): byte
    requires p in {1, 2, 4, 8, 16, 32, 64, 128}
  {
    if HasBit(b, p) then b - p else b
  }

  /** The two QoS bits of an MQTT-SN flags byte: (b >> 5) & 0x03 */
  function SnQos(b: byte): (q: int)
    ensures 0 <= q <= 3
  {
    (b / 32) % 4
  }

  /** b & 0x9f */
  function ClearSnQos(b: byte): byte {
    (b / 128) * 128 + b % 32
  }

  /** b & 0xf3 */
  function Mask0xf3(b: byte): byte {
    (b / 16) * 16 + b % 4
  }

  lemma FlipIsXor(b: bv8)
    ensures Flip(b as int) == (b ^ 0x20) as int
  {
  }

  lemma ClearSnQosIsAnd(b: bv8)
    ensures ClearSnQos(b as int) == (b & 0x9f) as int
  {
  }

  lemma Mask0xf3IsAnd(b: bv8)
    ensures Mask0xf3(b as int) == (b & 0xf3) as int
  {
    var high, low := b & 0xf0, b & 0x03;
    assert b & 0xf3 == high | low;
    HighAndLow(b);
  }

  lemma HighAndLow(b: bv8)
    ensures ((b & 0xf0) | (b & 0x03)) as int == (b & 0xf0) as int + (b & 0x03) as int
    ensures (b & 0xf0) as int == (b as int / 16) * 16 && (b & 0x03) as int == b as int % 4
  {
  }

  lemma SnQosIsShift(b: bv8)
    ensures SnQos(b as int) == ((b >> 5) & 0x03) as int
  {
    var c := b >> 5;
    assert c as int == b as int / 32;
    LowBits(c);
  }

  lemma LowBits(c: bv8)
    ensures (c & 0x03) as int == c as int % 4
  {
  }

  /** What the masks of a single bit are. */
  ghost predicate IsOperator(b: bv8, p: int, mask: bv8)
    requires p in {1, 2, 4, 8, 16, 32, 64, 128}
  {
    && (HasBit(b as int, p) <==> b & mask != 0)
    && SetBit(b as int, p) == (b | mask) as int
    && ClearBit(b as int, p) == (b & !mask) as int
  }

  lemma Bit0(b: bv8)
    ensures IsOperator(b, 1, 1)
  {
  }

  lemma Bit1(b: bv8)
    ensures IsOperator(b, 2, 2)
  {
  }

  lemma Bit2(b: bv8)
    ensures IsOperator(b, 4, 4)
  {
  }

  lemma Bit3(b: bv8)
    ensures IsOperator(b, 8, 8)
  {
  }

  lemma Bit4(b: bv8)
    ensures IsOperator(b, 16, 16)
  {
  }

  lemma Bit5(b: bv8)
    ensures IsOperator(b, 32, 32)
  {
  }

  lemma Bit6(b: bv8)
    ensures IsOperator(b, 64, 64)
  {
  }

  lemma Bit7(b: bv8)
    ensures IsOperator(b, 128, 128)
  {
  }

  lemma BitsAreOperators(b: bv8, mask: bv8)
    requires mask in {1, 2, 4, 8, 16, 32, 64, 128}
    ensures mask as int in {1, 2, 4, 8, 16, 32, 64, 128} && IsOperator(b, mask as int, mask)
  {
    match mask {
      case 1 => Bit0(b);
      case 2 => Bit1(b);
      case 4 => Bit2(b);
      case 8 => Bit3(b);
      case 16 => Bit4(b);
      case 32 => Bit5(b);
      case 64 => Bit6(b);
      case _ => Bit7(b);
    }
  }
}
