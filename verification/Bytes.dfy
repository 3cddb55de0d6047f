/**
 Big-endian integers of the CQL notations and the buffers they are written to and read from
 (external/brpc/922.patch.new:1849-1908).  `butil::IOBuf` is a byte sequence, an `IOBuf::Area` the offset of
 reserved bytes, and `IOBufBytesIterator` a position in a fixed byte sequence.
 */
module Bytes {
  import opened Arith

  type Byte = b: int | 0 <= b < 256

  const TWO_15: int := 0x8000
  const TWO_16: int := 0x1_0000
  const TWO_31: int := 0x8000_0000
  const TWO_32: int := 0x1_0000_0000
  const TWO_63: int := 0x8000_0000_0000_0000
  const TWO_64: int := 0x1_0000_0000_0000_0000

  /** An unsigned value read as a signed one of the same width: int16_t, int32_t and int64_t. */
  function Int16(u: int): int {
    if u < TWO_15 then u else u - TWO_16
  }

  function Int32(u: int): int {
    if u < TWO_31 then u else u - TWO_32
  }

  function Int64(u: int): int {
    if u < TWO_63 then u else u - TWO_64
  }

  /** The conversion of a `size_t` to `int`. */
  function ToInt(n: nat): (r: int)
    ensures r <= n
  {
    Int32(n % TWO_32)
  }

  /** `CqlEncodeInt16` and `CqlEncodeUint16` write the same two bytes. */
  function Encode16(v: int): (r: seq<Byte>)
    ensures |r| == 2
  {
    [(v / 0x100) % 0x100, v % 0x100]
  }

  /** `CqlEncodeInt32` and `CqlEncodeUint32`: the high half, then the low half. */
  function Encode32(v: int): (r: seq<Byte>)
    ensures |r| == 4
  {
    Encode16(v / TWO_16) + Encode16(v)
  }

  function Encode64(v: int): (r: seq<Byte>)
    ensures |r| == 8
  {
    Encode32(v / TWO_32) + Encode32(v)
  }

  function Unsigned16(b: seq<Byte>): (r: int)
    requires |b| >= 2
    ensures 0 <= r < TWO_16
  {
    (b[0] as int) * 0x100 + b[1] as int
  }

  function Unsigned32(b: seq<Byte>): (r: int)
    requires |b| >= 4
    ensures 0 <= r < TWO_32
  {
    Unsigned16(b) * TWO_16 + Unsigned16(b[2..])
  }

  function Unsigned64(b: seq<Byte>): (r: int)
    requires |b| >= 8
    ensures 0 <= r < TWO_64
  {
    Unsigned32(b) * TWO_32 + Unsigned32(b[4..])
  }

  /** Reading looks only at the bytes that were written, so whatever follows them makes no difference. */
  lemma Decode16(v: int, rest: seq<Byte>)
    ensures Unsigned16(Encode16(v) + rest) == v % TWO_16
  {
  }

  lemma Halves(v: int, half: int, high: int, low: int)
    requires half > 0 && high == (v / half) % half && low == v % half
    ensures high * half + low == v % (half * half)
  {
    var q := (v / half) / half;
    assert v == (v / half) * half + low && v / half == q * half + high;
    assert (q * half + high) * half == q * (half * half) + high * half;
    MulAtLeast(half, half);
    HighPart(high, half);
    DivModUnique(v, half * half, q, high * half + low);
  }

  lemma HighPart(high: int, half: int)
    requires 0 <= high < half
    ensures 0 <= high * half <= half * half - half
  {
    MulMonotone(high, half - 1, half);
    assert (half - 1) * half == half * half - half;
  }

  lemma Decode32(v: int, rest: seq<Byte>)
    ensures Unsigned32(Encode32(v) + rest) == v % TWO_32
  {
    var b := Encode32(v) + rest;
    assert b == Encode16(v / TWO_16) + (Encode16(v) + rest) && b[2..] == Encode16(v) + rest;
    Decode16(v / TWO_16, Encode16(v) + rest);
    Decode16(v, rest);
    Halves(v, TWO_16, Unsigned16(b), Unsigned16(b[2..]));
  }

  lemma Signed32(v: int, rest: seq<Byte>)
    requires -TWO_31 <= v < TWO_31
    ensures Int32(Unsigned32(Encode32(v) + rest)) == v
  {
    Decode32(v, rest);
    assert v % TWO_32 == if v < 0 then v + TWO_32 else v;
  }

  lemma Decode64(v: int, rest: seq<Byte>)
    ensures Unsigned64(Encode64(v) + rest) == v % TWO_64
  {
    var b := Encode64(v) + rest;
    assert b == Encode32(v / TWO_32) + (Encode32(v) + rest) && b[4..] == Encode32(v) + rest;
    Decode32(v / TWO_32, Encode32(v) + rest);
    Decode32(v, rest);
    Halves(v, TWO_32, Unsigned32(b), Unsigned32(b[4..]));
  }

  lemma Signed64(v: int, rest: seq<Byte>)
    requires -TWO_63 <= v < TWO_63
    ensures Int64(Unsigned64(Encode64(v) + rest)) == v
  {
    hide Encode64, Unsigned64;
    Decode64(v, rest);
    assert v % TWO_64 == if v < 0 then v + TWO_64 else v;
  }

  /** Encoding inverts decoding, too: the bytes are determined by the number they stand for. */
  lemma Encode16Inverts(b: seq<Byte>)
    requires |b| == 2
    ensures Encode16(Unsigned16(b)) == b
  {
  }

  lemma Encode16Low(high: int, low: int)
    ensures Encode16(high * TWO_16 + low) == Encode16(low)
  {
    var v := high * TWO_16 + low;
    assert v / 0x100 == high * 0x100 + low / 0x100;
    assert v % 0x100 == low % 0x100;
  }

  lemma Encode32Inverts(b: seq<Byte>)
    requires |b| == 4
    ensures Encode32(Unsigned32(b)) == b
  {
    var high, low := Unsigned16(b), Unsigned16(b[2..]);
    assert (high * TWO_16 + low) / TWO_16 == high;
    Encode16Low(high, low);
    Encode16Inverts(b[..2]);
    Encode16Inverts(b[2..]);
    assert b == b[..2] + b[2..] && Unsigned16(b[..2]) == high;
  }

  /** The notations are big-endian: the first byte counts most. */
  lemma BigEndian(b: seq<Byte>)
    requires |b| >= 8
    ensures Unsigned16(b) == (b[0] as int) * 0x100 + b[1] as int
    ensures Unsigned32(b) == (b[0] as int) * 0x100_0000 + (b[1] as int) * 0x1_0000 + (b[2] as int) * 0x100 + b[3] as int
    ensures Unsigned64(b) == Unsigned32(b) * 0x1_0000_0000 + Unsigned32(b[4..])
  {
    assert b[4..][2..] == b[6..];
  }

  class IOBuf {
    var bytes: seq<Byte>

    constructor ()
      ensures bytes == []
    {
      bytes := [];
    }

    method PushBack(b: Byte)
      modifies this
      ensures bytes == old(bytes) + [b]
    {
      bytes := bytes + [b];
    }

    method AppendBytes(b: seq<Byte>)
      modifies this
      ensures bytes == old(bytes) + b
    {
      bytes := bytes + b;
    }

    /** Reserved bytes hold nothing meaningful until they are assigned; any value may be there. */
    method Reserve(n: nat, garbage: Byte) returns (area: nat)
      modifies this
      ensures area == |old(bytes)| && |bytes| == |old(bytes)| + n && bytes[..area] == old(bytes)
    {
      area := |bytes|;
      bytes := bytes + seq(n, _ => garbage);
    }

    method UnsafeAssign(area: nat, b: seq<Byte>)
      requires area + |b| <= |bytes|
      modifies this
      ensures bytes == old(bytes)[..area] + b + old(bytes)[area + |b|..]
    {
      bytes := bytes[..area] + b + bytes[area + |b|..];
    }
  }

  class BytesIterator {
    const data: seq<Byte>
    var pos: nat

    ghost predicate Valid()
      reads this
    {
      pos <= |data|
    }

    function Left(): seq<Byte>
      requires Valid()
      reads this
    {
      data[pos..]
    }

    constructor (data: seq<Byte>)
      ensures Valid() && this.data == data && pos == 0
    {
      this.data := data;
      pos := 0;
    }

    method Forward(n: nat) returns (b: seq<Byte>)
      requires Valid() && n <= |Left()|
      modifies this
      ensures Valid() && b == old(Left())[..n] && Left() == old(Left())[n..]
    {
      b := data[pos..pos + n];
      pos := pos + n;
    }
  }
}
