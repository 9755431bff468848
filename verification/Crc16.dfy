/** CRC-16/XMODEM: the table-driven loops of the source, and what they compute. The 16-bit
    register is held as its sixteen bits. */
module Crc16 {
  import opened Binary
  import opened Bytes
  import opened Gf2
  import opened Crc16Table

  /** The bits of one byte, most significant first. */
  function ByteBits(b: byte): Octet {
    ToBits(8, b as int)
  }

  function Bits(s: seq<byte>): (bits: seq<bool>)
    ensures |bits| == 8 * |s|
  {
    if s == [] then [] else ByteBits(s[0]) + Bits(s[1..])
  }

  function XorOctet(a: Octet, b: Octet): (c: Octet)
    ensures forall k | 0 <= k < 8 :: c[k] == (a[k] != b[k])
  {
    seq(8, k requires 0 <= k < 8 => a[k] != b[k])
  }

  /** crc16tab indexed by a byte, as a register. */
  function Lookup(i: Octet): Poly {
    OctetEntry(i);
    ToBits(16, Entry(Value(i)))
  }

  /** One round of the source's loop: shift the register left by a byte and add the entry for
      the byte that left it combined with the message byte. */
  function TableStep(crc: Poly, b: byte): Poly {
    Xor(crc[8..] + Zeros(8), Lookup(XorOctet(crc[..8], ByteBits(b))))
  }

  function TableCrc(crc: Poly, s: seq<byte>): Poly
    decreases |s|
  {
    if s == [] then crc else TableCrc(TableStep(crc, s[0]), s[1..])
  }

  // ---------------------------------------------------------------- the loops of the source

  /** crc16: the remainder of the message followed by sixteen zero bits. */
  method Crc(buf: seq<byte>) returns (crc: Poly)
    ensures crc == TableCrc(Zeros(16), buf)
    ensures crc == Remainder(Zeros(16), Bits(buf) + Zeros(16))
  {
    crc := Zeros(16);
    for i := 0 to |buf|
      invariant TableCrc(crc, buf[i..]) == TableCrc(Zeros(16), buf)
    {
      assert buf[i..][1..] == buf[i + 1..];
      crc := TableStep(crc, buf[i]);
    }
    TableCrcIsRemainder(Zeros(16), buf);
  }

  /** crc16_crc: the same division continued from a given register. */
  method CrcContinue(start: Poly, buf: seq<byte>) returns (crc: Poly)
    ensures crc == TableCrc(start, buf)
    ensures crc == BitCrc(start, Bits(buf))
  {
    crc := start;
    for i := 0 to |buf|
      invariant TableCrc(crc, buf[i..]) == TableCrc(start, buf)
    {
      assert buf[i..][1..] == buf[i + 1..];
      crc := TableStep(crc, buf[i]);
    }
    TableCrcIsBitCrc(start, buf);
  }

  // ---------------------------------------------------------------- table = bit by bit

  /** One table look-up is eight steps of bit-by-bit division. */
  lemma TableStepIsEightBits(crc: Poly, b: byte)
    ensures TableStep(crc, b) == BitCrc(crc, ByteBits(b))
  {
    var w := ByteBits(b);
    var i := XorOctet(crc[..8], w);
    var high: Poly := i + Zeros(8);
    var low: Poly := Zeros(8) + crc[8..];
    AbsorbBits(crc, w);
    assert Xor(crc, Padded(w)) == Xor(low, high);
    RaiseLinear(8, low, high);
    RaiseLow(8, crc[8..]);
    assert Zeros(0) + crc[8..] + Zeros(8) == crc[8..] + Zeros(8);
    EntryIsRaised(i);
  }

  /** The table-driven loop computes the bit-by-bit division, for every start value. */
  lemma {:induction false} TableCrcIsBitCrc(crc: Poly, s: seq<byte>)
    ensures TableCrc(crc, s) == BitCrc(crc, Bits(s))
    decreases |s|
  {
    if s != [] {
      TableStepIsEightBits(crc, s[0]);
      BitCrcConcat(crc, ByteBits(s[0]), Bits(s[1..]));
      TableCrcIsBitCrc(TableStep(crc, s[0]), s[1..]);
    }
  }

  /** For every start value, the checksum is the remainder of the long division of the message
      followed by sixteen zeros, the register first loaded with start / x^16. */
  lemma TableCrcIsRemainder(start: Poly, s: seq<byte>)
    ensures TableCrc(start, s) == Remainder(Lower(16, start), Bits(s) + Zeros(16))
    ensures Lower(16, Zeros(16)) == Zeros(16)
  {
    TableCrcIsBitCrc(start, s);
    BitCrcIsRemainder(Lower(16, start), Bits(s));
    RaiseZeros(16);
    RaiseInjective(16, Lower(16, Zeros(16)), Zeros(16));
  }

  lemma {:induction false} RaiseZeros(n: nat)
    ensures Raise(n, Zeros(16)) == Zeros(16)
    decreases n
  {
    if n > 0 {
      assert Times(Zeros(16)) == Zeros(16);
      RaiseZeros(n - 1);
    }
  }

  /** Continuing a checksum over a second piece is the checksum of the two pieces joined. */
  lemma {:induction false} TableCrcConcat(crc: Poly, a: seq<byte>, b: seq<byte>)
    ensures TableCrc(TableCrc(crc, a), b) == TableCrc(crc, a + b)
    decreases |a|
  {
    if a == [] {
      assert a + b == b;
    } else {
      assert (a + b)[1..] == a[1..] + b;
      TableCrcConcat(TableStep(crc, a[0]), a[1..], b);
    }
  }

  // ---------------------------------------------------------------- error detection

  lemma {:induction false} BitsConcat(a: seq<byte>, b: seq<byte>)
    ensures Bits(a + b) == Bits(a) + Bits(b)
  {
    if a == [] {
      assert a + b == b;
    } else {
      assert (a + b)[1..] == a[1..] + b;
      BitsConcat(a[1..], b);
    }
  }

  lemma ByteBitsInjective(x: byte, y: byte)
    requires ByteBits(x) == ByteBits(y)
    ensures x == y
  {
    assert Pow2(8) == 16 * Pow2(4) == 256;
    ValueToBits(8, x as int);
    ValueToBits(8, y as int);
  }

  lemma {:induction false} BitsInjective(a: seq<byte>, b: seq<byte>)
    requires |a| == |b| && Bits(a) == Bits(b)
    ensures a == b
  {
    if a != [] {
      assert ByteBits(a[0]) == Bits(a)[..8] == Bits(b)[..8] == ByteBits(b[0]);
      ByteBitsInjective(a[0], b[0]);
      assert Bits(a[1..]) == Bits(a)[8..] == Bits(b)[8..] == Bits(b[1..]);
      BitsInjective(a[1..], b[1..]);
      assert a == [a[0]] + a[1..] && b == [b[0]] + b[1..];
    }
  }

  lemma WindowBits(crc: Poly, before: seq<byte>, u: seq<byte>, after: seq<byte>)
    ensures TableCrc(crc, before + u + after) == BitCrc(crc, Bits(before) + Bits(u) + Bits(after))
  {
    TableCrcIsBitCrc(crc, before + u + after);
    BitsConcat(before + u, after);
    BitsConcat(before, u);
  }

  /** Changing one byte, or any two adjacent bytes, always changes the checksum, whatever the
      length of the message, the place and the start value. */
  lemma AdjacentBytesDetected(crc: Poly, before: seq<byte>, x: seq<byte>, y: seq<byte>, after: seq<byte>)
    requires |x| == |y| <= 2 && x != y
    ensures TableCrc(crc, before + x + after) != TableCrc(crc, before + y + after)
  {
    WindowBits(crc, before, x, after);
    WindowBits(crc, before, y, after);
    if Bits(x) == Bits(y) {
      BitsInjective(x, y);
    }
    BurstDetected(crc, Bits(before), Bits(x), Bits(y), Bits(after));
  }

  /** How many bits differ. */
  function Differences(a: seq<bool>, b: seq<bool>): nat
    requires |a| == |b|
  {
    if a == [] then 0 else (if a[0] != b[0] then 1 else 0) + Differences(a[1..], b[1..])
  }

  lemma {:induction false} OddDifferences(a: seq<bool>, b: seq<bool>)
    requires |a| == |b|
    ensures (Odd(a) != Odd(b)) == (Differences(a, b) % 2 == 1)
  {
    if a != [] {
      OddDifferences(a[1..], b[1..]);
    }
  }

  /** Flipping any odd number of bits, anywhere in the message, changes the checksum. */
  lemma OddErrorsDetected(crc: Poly, s: seq<byte>, t: seq<byte>)
    requires |s| == |t| && Differences(Bits(s), Bits(t)) % 2 == 1
    ensures TableCrc(crc, s) != TableCrc(crc, t)
  {
    TableCrcIsBitCrc(crc, s);
    TableCrcIsBitCrc(crc, t);
    OddBitCrc(crc, Bits(s));
    OddBitCrc(crc, Bits(t));
    OddDifferences(Bits(s), Bits(t));
  }
}
