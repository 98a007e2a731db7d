/** The Remaining Length field: 7 bits a byte, least significant first, high bit set when more
    bytes follow (section 2.1 of MQTT V3.1). */
module RemainingLengths {
  import opened Bytes

  /** encode */
  function Encode(len: nat): (ds: seq<byte>)
    ensures ds != []
    decreases len
  {
    if len / 128 > 0 then [len % 128 + 128] + Encode(len / 128) else [len % 128]
  }

  /** Some byte has its high bit clear. */
  predicate Terminated(ds: seq<byte>) {
    ds != [] && (ds[0] < 128 || Terminated(ds[1..]))
  }

  /** How many bytes the field takes. */
  function UsedDigits(ds: seq<byte>): (n: nat)
    requires Terminated(ds)
    ensures 1 <= n <= |ds|
    ensures ds[n - 1] < 128 && forall i | 0 <= i < n - 1 :: ds[i] >= 128
  {
    if ds[0] < 128 then 1 else 1 + UsedDigits(ds[1..])
  }

  /** The value, without any width. */
  function Value(ds: seq<byte>): nat
    requires Terminated(ds)
  {
    ds[0] % 128 + if ds[0] < 128 then 0 else 128 * Value(ds[1..])
  }

  /** decode: both the value and the multiplier are 16 bits wide. */
  function Decode(ds: seq<byte>, multiplier: uint16, value: uint16): uint16
    requires Terminated(ds)
  {
    var v := (value + (ds[0] % 128) * multiplier) % 65536;
    if ds[0] < 128 then v else Decode(ds[1..], (multiplier * 128) % 65536, v)
  }

  lemma {:induction false} ValueOfEncode(len: nat, rest: seq<byte>)
    ensures Terminated(Encode(len) + rest)
    ensures Value(Encode(len) + rest) == len && UsedDigits(Encode(len) + rest) == |Encode(len)|
    decreases len
  {
    var ds := Encode(len) + rest;
    if len / 128 > 0 {
      ValueOfEncode(len / 128, rest);
      var tail := Encode(len / 128) + rest;
      assert ds == [len % 128 + 128] + tail;
      assert ds[1..] == tail && ds[0] == len % 128 + 128;
    } else {
      assert ds == [len] + rest && ds[0] == len;
    }
  }

  lemma EncodeSize(len: uint16)
    ensures |Encode(len)| == if len < 128 then 1 else if len < 16384 then 2 else 3
  {
    if len >= 128 {
      assert |Encode(len)| == 1 + |Encode(len / 128)|;
      if len >= 16384 {
        assert |Encode(len / 128)| == 1 + |Encode(len / 128 / 128)|;
      }
    }
  }

  /** 16-bit arithmetic gives the value modulo 2 to the 16, whatever the bytes. */
  lemma {:induction false} DecodeIsValueModulo(ds: seq<byte>, multiplier: uint16, value: uint16)
    requires Terminated(ds)
    ensures Decode(ds, multiplier, value) == (value + multiplier * Value(ds)) % 65536
    decreases |ds|
  {
    var d := ds[0] % 128;
    var v := (value + d * multiplier) % 65536;
    if ds[0] >= 128 {
      var w := Value(ds[1..]);
      var m := (multiplier * 128) % 65536;
      DecodeIsValueModulo(ds[1..], m, v);
      ModuloStep(value + d * multiplier, multiplier * 128, w);
      assert multiplier * (d + 128 * w) == d * multiplier + (multiplier * 128) * w by {
        Distribute(multiplier, d, w);
      }
    } else {
      assert Value(ds) == d;
      assert multiplier * d == d * multiplier;
    }
  }

  lemma Distribute(m: int, d: int, w: int)
    ensures m * (d + 128 * w) == d * m + (m * 128) * w
  {
  }

  lemma ModuloStep(a: int, m: int, w: int)
    ensures (a % 65536 + (m % 65536) * w) % 65536 == (a + m * w) % 65536
  {
    var q, r := a / 65536, m / 65536;
    var b, n := a % 65536, m % 65536;
    Expand(r, n, w);
    DropMultiple(q + r * w, b + n * w);
  }

  lemma Expand(r: int, n: int, w: int)
    ensures (65536 * r + n) * w == 65536 * (r * w) + n * w
  {
  }

  lemma DropMultiple(k: int, y: int)
    ensures (65536 * k + y) % 65536 == y % 65536
  {
  }

  /** The identity on 16-bit lengths, in at most three bytes; and for bytes that came from
      elsewhere, the exact limit of the 16-bit decoder. */
  lemma RemainingLengthRoundTrip(len: uint16, rest: seq<byte>)
    ensures |Encode(len)| <= 3
    ensures Terminated(Encode(len) + rest) && Decode(Encode(len) + rest, 1, 0) == len
    ensures UsedDigits(Encode(len) + rest) == |Encode(len)|
  {
    EncodeSize(len);
    ValueOfEncode(len, rest);
    DecodeIsValueModulo(Encode(len) + rest, 1, 0);
    FromOneAndZero(Value(Encode(len) + rest));
  }

  lemma FromOneAndZero(v: nat)
    ensures (0 + 1 * v) % 65536 == v % 65536
  {
  }

  lemma DecodeIsExactIff(ds: seq<byte>)
    requires Terminated(ds)
    ensures Decode(ds, 1, 0) == Value(ds) <==> Value(ds) < 65536
  {
    DecodeIsValueModulo(ds, 1, 0);
  }

  lemma AddModulo(a: nat, v: nat)
    ensures (a + v % 65536) % 65536 == (a + v) % 65536
  {
  }

  class RemainingLength {
    const digit: array<byte>
    var size: nat

    ghost predicate Valid()
      reads this, digit
    {
      digit.Length == 4 && size <= 4
    }

    constructor ()
      ensures Valid() && fresh(digit) && size == 0 && Terminated(digit[..])
    {
      digit := new byte[4](_ => 0);
      size := 0;
    }

    method EncodeLength(len: uint16)
      requires Valid()
      modifies this, digit
      ensures Valid()
      ensures size == |Encode(len)| && digit[..size] == Encode(len) && Terminated(digit[..])
    {
      size := 0;
      var rest: uint16 := len;
      var more := true;
      EncodeSize(len);
      while more
        invariant 0 <= size <= 3 && Valid()
        invariant if more then digit[..size] + Encode(rest) == Encode(len) else digit[..size] == Encode(len)
        invariant more ==> |Encode(rest)| + size <= 3
        decreases rest, if more then 1 else 0
      {
        var d: byte := rest % 128;
        var next: uint16 := rest / 128;
        if next > 0 {
          d := d + 128;
        }
        ghost var before := digit[..size];
        assert Encode(rest) == [d] + if next > 0 then Encode(next) else [];
        digit[size] := d;
        size := size + 1;
        assert digit[..size] == before + [d];
        assert before + ([d] + Encode(next)) == before + [d] + Encode(next);
        rest := next;
        more := rest > 0;
      }
      assert digit[..] == digit[..size] + digit[size..];
      ValueOfEncode(len, digit[size..]);
    }

    method DecodeLength() returns (value: uint16)
      requires Valid() && Terminated(digit[..])
      ensures value == Decode(digit[..], 1, 0)
    {
      var multiplier: uint16 := 1;
      value := 0;
      var pos := 0;
      var more := true;
      assert digit[..] == digit[0..];
      while more
        invariant 0 <= pos <= 4
        invariant more ==> Terminated(digit[pos..]) && Decode(digit[..], 1, 0) == Decode(digit[pos..], multiplier, value)
        invariant !more ==> value == Decode(digit[..], 1, 0)
        decreases 4 - pos, if more then 1 else 0
      {
        assert digit[pos..][0] == digit[pos] && digit[pos..][1..] == digit[pos + 1..];
        value := (value + (digit[pos] % 128) * multiplier) % 65536;
        multiplier := (multiplier * 128) % 65536;
        more := digit[pos] >= 128;
        pos := pos + 1;
      }
    }

    /** The field is at `pos` in the buffer; it must end within four bytes, which is all the room
        there is. */
    method Deserialize(buf: array<byte>, pos: nat)
      requires Valid() && buf != digit
      requires pos <= buf.Length && Terminated(buf[pos..]) && UsedDigits(buf[pos..]) <= 4
      modifies this, digit
      ensures Valid()
      ensures size == UsedDigits(buf[pos..]) && digit[..size] == buf[pos..pos + size]
      ensures Terminated(digit[..])
    {
      ghost var n := UsedDigits(buf[pos..]);
      ghost var field := buf[pos..];
      var i := 0;
      size := 0;
      var more := true;
      while more
        invariant Valid() && i == size <= n && digit[..i] == field[..i]
        invariant if more then i < n else i == n
        decreases n - i, if more then 1 else 0
      {
        ghost var done := digit[..i];
        digit[i] := buf[pos + i];
        assert field[i] == buf[pos + i];
        assert digit[..i + 1] == done + [field[i]] == field[..i] + [field[i]] == field[..i + 1];
        more := buf[pos + i] >= 128;
        i := i + 1;
        size := size + 1;
      }
      assert digit[n - 1] == digit[..n][n - 1] == field[..n][n - 1] == field[n - 1];
      assert field[..n] == buf[pos..pos + n];
      TerminatedAt(digit[..], n - 1);
    }
  }

  lemma {:induction false} TerminatedAt(ds: seq<byte>, i: nat)
    requires i < |ds| && ds[i] < 128
    ensures Terminated(ds)
    decreases i
  {
    if i > 0 {
      TerminatedAt(ds[1..], i - 1);
    }
  }

  /** Bytes after the last digit do not matter. */
  lemma {:induction false} OnlyUsedDigits(a: seq<byte>, b: seq<byte>, multiplier: uint16, value: uint16)
    requires Terminated(a) && |b| >= UsedDigits(a) && b[..UsedDigits(a)] == a[..UsedDigits(a)]
    ensures Terminated(b) && UsedDigits(b) == UsedDigits(a) && Decode(b, multiplier, value) == Decode(a, multiplier, value)
    decreases |a|
  {
    var n := UsedDigits(a);
    assert b[0] == b[..n][0] == a[..n][0] == a[0];
    if a[0] >= 128 {
      assert b[1..][..n - 1] == b[..n][1..] == a[..n][1..] == a[1..][..n - 1];
      OnlyUsedDigits(a[1..], b[1..], (multiplier * 128) % 65536, (value + (a[0] % 128) * multiplier) % 65536);
    }
  }
}
