/** The 256-entry lookup table of the CRC, and its closed form: the entry of a byte is that
    byte, as the coefficients of x^15 .. x^8, multiplied by x^8 modulo the generator. */
module Crc16Table {
  import opened Binary
  import opened Gf2

  /** The table, eight entries a row as in the source. */
  function Row(r: nat): (row: seq<nat>)
    requires r < 32
    ensures |row| == 8
  {
    match r
    case 0 => [0x0000, 0x1021, 0x2042, 0x3063, 0x4084, 0x50a5, 0x60c6, 0x70e7]
    case 1 => [0x8108, 0x9129, 0xa14a, 0xb16b, 0xc18c, 0xd1ad, 0xe1ce, 0xf1ef]
    case 2 => [0x1231, 0x0210, 0x3273, 0x2252, 0x52b5, 0x4294, 0x72f7, 0x62d6]
    case 3 => [0x9339, 0x8318, 0xb37b, 0xa35a, 0xd3bd, 0xc39c, 0xf3ff, 0xe3de]
    case 4 => [0x2462, 0x3443, 0x0420, 0x1401, 0x64e6, 0x74c7, 0x44a4, 0x5485]
    case 5 => [0xa56a, 0xb54b, 0x8528, 0x9509, 0xe5ee, 0xf5cf, 0xc5ac, 0xd58d]
    case 6 => [0x3653, 0x2672, 0x1611, 0x0630, 0x76d7, 0x66f6, 0x5695, 0x46b4]
    case 7 => [0xb75b, 0xa77a, 0x9719, 0x8738, 0xf7df, 0xe7fe, 0xd79d, 0xc7bc]
    case 8 => [0x48c4, 0x58e5, 0x6886, 0x78a7, 0x0840, 0x1861, 0x2802, 0x3823]
    case 9 => [0xc9cc, 0xd9ed, 0xe98e, 0xf9af, 0x8948, 0x9969, 0xa90a, 0xb92b]
    case 10 => [0x5af5, 0x4ad4, 0x7ab7, 0x6a96, 0x1a71, 0x0a50, 0x3a33, 0x2a12]
    case 11 => [0xdbfd, 0xcbdc, 0xfbbf, 0xeb9e, 0x9b79, 0x8b58, 0xbb3b, 0xab1a]
    case 12 => [0x6ca6, 0x7c87, 0x4ce4, 0x5cc5, 0x2c22, 0x3c03, 0x0c60, 0x1c41]
    case 13 => [0xedae, 0xfd8f, 0xcdec, 0xddcd, 0xad2a, 0xbd0b, 0x8d68, 0x9d49]
    case 14 => [0x7e97, 0x6eb6, 0x5ed5, 0x4ef4, 0x3e13, 0x2e32, 0x1e51, 0x0e70]
    case 15 => [0xff9f, 0xefbe, 0xdfdd, 0xcffc, 0xbf1b, 0xaf3a, 0x9f59, 0x8f78]
    case 16 => [0x9188, 0x81a9, 0xb1ca, 0xa1eb, 0xd10c, 0xc12d, 0xf14e, 0xe16f]
    case 17 => [0x1080, 0x00a1, 0x30c2, 0x20e3, 0x5004, 0x4025, 0x7046, 0x6067]
    case 18 => [0x83b9, 0x9398, 0xa3fb, 0xb3da, 0xc33d, 0xd31c, 0xe37f, 0xf35e]
    case 19 => [0x02b1, 0x1290, 0x22f3, 0x32d2, 0x4235, 0x5214, 0x6277, 0x7256]
    case 20 => [0xb5ea, 0xa5cb, 0x95a8, 0x8589, 0xf56e, 0xe54f, 0xd52c, 0xc50d]
    case 21 => [0x34e2, 0x24c3, 0x14a0, 0x0481, 0x7466, 0x6447, 0x5424, 0x4405]
    case 22 => [0xa7db, 0xb7fa, 0x8799, 0x97b8, 0xe75f, 0xf77e, 0xc71d, 0xd73c]
    case 23 => [0x26d3, 0x36f2, 0x0691, 0x16b0, 0x6657, 0x7676, 0x4615, 0x5634]
    case 24 => [0xd94c, 0xc96d, 0xf90e, 0xe92f, 0x99c8, 0x89e9, 0xb98a, 0xa9ab]
    case 25 => [0x5844, 0x4865, 0x7806, 0x6827, 0x18c0, 0x08e1, 0x3882, 0x28a3]
    case 26 => [0xcb7d, 0xdb5c, 0xeb3f, 0xfb1e, 0x8bf9, 0x9bd8, 0xabbb, 0xbb9a]
    case 27 => [0x4a75, 0x5a54, 0x6a37, 0x7a16, 0x0af1, 0x1ad0, 0x2ab3, 0x3a92]
    case 28 => [0xfd2e, 0xed0f, 0xdd6c, 0xcd4d, 0xbdaa, 0xad8b, 0x9de8, 0x8dc9]
    case 29 => [0x7c26, 0x6c07, 0x5c64, 0x4c45, 0x3ca2, 0x2c83, 0x1ce0, 0x0cc1]
    case 30 => [0xef1f, 0xff3e, 0xcf5d, 0xdf7c, 0xaf9b, 0xbfba, 0x8fd9, 0x9ff8]
    case _ => [0x6e17, 0x7e36, 0x4e55, 0x5e74, 0x2e93, 0x3eb2, 0x0ed1, 0x1ef0]
  }

  /** crc16tab[i] */
  function Entry(i: nat): nat
    requires i < 256
  {
    Row(i / 8)[i % 8]
  }

  /** The entry of a byte with bits w0 .. w7, most significant first: each bit of it is the sum
      modulo two of some bits of the byte. */
  function EntryValue(w0: bool, w1: bool, w2: bool, w3: bool, w4: bool, w5: bool, w6: bool, w7: bool): nat {
    256 * EntryHigh(w0, w1, w2, w3, w4, w5, w6, w7) + EntryLow(w0, w1, w2, w3, w4, w5, w6, w7)
  }

  function EntryHigh(w0: bool, w1: bool, w2: bool, w3: bool, w4: bool, w5: bool, w6: bool, w7: bool): nat {
    16 * Nibble(w0 != w4, w1 != w5, w2 != w6, (w0 != w3) != w7) + Nibble(w1, w2, w3, w0 != w4)
  }

  function EntryLow(w0: bool, w1: bool, w2: bool, w3: bool, w4: bool, w5: bool, w6: bool, w7: bool): nat {
    16 * Nibble((w0 != w1) != w5, (w1 != w2) != w6, (w2 != w3) != w7, w3) + Nibble(w0 != w4, w1 != w5, w2 != w6, w3 != w7)
  }

  lemma Rows0To7(w2: bool, w3: bool, w4: bool, w5: bool, w6: bool, w7: bool)
    ensures Row(0 + 4 * Digit(w2) + 2 * Digit(w3) + Digit(w4))[4 * Digit(w5) + 2 * Digit(w6) + Digit(w7)]
         == EntryValue(false, false, w2, w3, w4, w5, w6, w7)
  {
  }

  lemma Rows8To15(w2: bool, w3: bool, w4: bool, w5: bool, w6: bool, w7: bool)
    ensures Row(8 + 4 * Digit(w2) + 2 * Digit(w3) + Digit(w4))[4 * Digit(w5) + 2 * Digit(w6) + Digit(w7)]
         == EntryValue(false, true, w2, w3, w4, w5, w6, w7)
  {
  }

  lemma Rows16To23(w2: bool, w3: bool, w4: bool, w5: bool, w6: bool, w7: bool)
    ensures Row(16 + 4 * Digit(w2) + 2 * Digit(w3) + Digit(w4))[4 * Digit(w5) + 2 * Digit(w6) + Digit(w7)]
         == EntryValue(true, false, w2, w3, w4, w5, w6, w7)
  {
  }

  lemma Rows24To31(w2: bool, w3: bool, w4: bool, w5: bool, w6: bool, w7: bool)
    ensures Row(24 + 4 * Digit(w2) + 2 * Digit(w3) + Digit(w4))[4 * Digit(w5) + 2 * Digit(w6) + Digit(w7)]
         == EntryValue(true, true, w2, w3, w4, w5, w6, w7)
  {
  }

  /** All 256 entries are what the closed form says. */
  lemma EntryClosedForm(w0: bool, w1: bool, w2: bool, w3: bool, w4: bool, w5: bool, w6: bool, w7: bool)
    ensures Row(16 * Digit(w0) + 8 * Digit(w1) + 4 * Digit(w2) + 2 * Digit(w3) + Digit(w4))
               [4 * Digit(w5) + 2 * Digit(w6) + Digit(w7)]
         == EntryValue(w0, w1, w2, w3, w4, w5, w6, w7)
  {
    var row, low := 16 * Digit(w0) + 8 * Digit(w1) + 4 * Digit(w2) + 2 * Digit(w3) + Digit(w4), 4 * Digit(w2) + 2 * Digit(w3) + Digit(w4);
    if w0 && w1 {
      assert row == 24 + low;
      Rows24To31(w2, w3, w4, w5, w6, w7);
    } else if w0 {
      assert row == 16 + low;
      Rows16To23(w2, w3, w4, w5, w6, w7);
    } else if w1 {
      assert row == 8 + low;
      Rows8To15(w2, w3, w4, w5, w6, w7);
    } else {
      assert row == low;
      Rows0To7(w2, w3, w4, w5, w6, w7);
    }
  }

  type Octet = b: seq<bool> | |b| == 8 witness Zeros(8)

  /** The byte added to its own high half. */
  function Folded(w: Octet, k: nat): bool
    requires k < 8
  {
    w[k] != (4 <= k && w[k - 4])
  }

  /** The closed form of an entry, as coefficients: the folded byte times x^12 + x^5 + 1. */
  function EntryBits(w: Octet): (p: Poly)
    ensures forall j | 0 <= j < 16 :: p[j] ==
              (((j < 4 && Folded(w, j + 4)) != (3 <= j <= 10 && Folded(w, j - 3)))
              != (8 <= j && Folded(w, j - 8)))
  {
    seq(16, j requires 0 <= j < 16 =>
      ((j < 4 && Folded(w, j + 4)) != (3 <= j <= 10 && Folded(w, j - 3))) != (8 <= j && Folded(w, j - 8)))
  }

  /** Coefficient j after two multiplications by x. */
  function Two(p: Poly, j: nat): bool
    requires j < 16
  {
    ((j < 14 && p[j + 2]) != (p[0] && j < 15 && Tap(j + 1))) != (p[1] && Tap(j))
  }

  /** Coefficient j after four: nothing that is fed back reaches the top again. */
  function Four(p: Poly, j: nat): bool
    requires j < 16
  {
    ((j < 12 && p[j + 4]) != (j < 4 && p[j])) != ((7 <= j <= 10 && p[j - 7]) != (12 <= j && p[j - 12]))
  }

  lemma TwoIsTimesTimes(p: Poly, j: nat)
    requires j < 16
    ensures Times(Times(p))[j] == Two(p, j)
  {
  }

  lemma FourIsTwoTwo(p: Poly, q: Poly, j: nat)
    requires j < 16 && q[0] == Two(p, 0) && q[1] == Two(p, 1) && (j < 14 ==> q[j + 2] == Two(p, j + 2))
    ensures Two(q, j) == Four(p, j)
  {
  }

  lemma RaiseFour(n: nat, p: Poly, j: nat)
    requires n == 4 && j < 16
    ensures Raise(n, p)[j] == Four(p, j)
  {
    var q := Times(Times(p));
    assert Raise(n, p) == Times(Times(q)) by {
      assert Raise(n, p) == Raise(n - 1, Times(p)) == Raise(n - 2, q) == Raise(n - 3, Times(q)) == Raise(n - 4, Times(Times(q)));
    }
    TwoIsTimesTimes(q, j);
    TwoIsTimesTimes(p, 0);
    TwoIsTimesTimes(p, 1);
    if j < 14 {
      TwoIsTimesTimes(p, j + 2);
    }
    FourIsTwoTwo(p, q, j);
  }

  lemma {:induction false} RaiseSplit(m: nat, n: nat, a: Poly)
    ensures Raise(m + n, a) == Raise(n, Raise(m, a))
    decreases m
  {
    if m > 0 {
      RaiseSplit(m - 1, n, Times(a));
    }
  }

  /** Coefficient j of the closed form, from the coefficients after four steps. */
  lemma EntryBitIsFourFour(w: Octet, p: Poly, q: Poly, j: nat)
    requires j < 16 && p == w + Zeros(8) && forall k | 0 <= k < 16 :: q[k] == Four(p, k)
    ensures EntryBits(w)[j] == Four(q, j)
  {
    if j < 4 {
      assert q[j + 4] == Four(p, j + 4) && q[j] == Four(p, j);
    } else if j < 7 || j == 11 {
      assert q[j + 4] == Four(p, j + 4);
    } else if j < 11 {
      assert q[j + 4] == Four(p, j + 4) && q[j - 7] == Four(p, j - 7);
    } else {
      assert q[j - 12] == Four(p, j - 12);
    }
  }

  lemma EntryBitIsRaised(n: nat, w: Octet, p: Poly, j: nat)
    requires n == 4 && j < 16 && p == w + Zeros(8)
    ensures EntryBits(w)[j] == Raise(n, Raise(n, p))[j]
  {
    var q := Raise(n, p);
    forall k | 0 <= k < 16
      ensures q[k] == Four(p, k)
    {
      RaiseFour(n, p, k);
    }
    RaiseFour(n, q, j);
    EntryBitIsFourFour(w, p, q, j);
  }

  /** The closed form is eight multiplications by x. */
  lemma EntryBitsAreRaised(w: Octet)
    ensures EntryBits(w) == Raise(8, w + Zeros(8))
  {
    var p: Poly := w + Zeros(8);
    RaiseSplit(4, 4, p);
    forall j | 0 <= j < 16
      ensures EntryBits(w)[j] == Raise(8, p)[j]
    {
      EntryBitIsRaised(4, w, p, j);
    }
  }

  lemma ValueOfOctet(w: Octet)
    ensures Value(w) == 16 * Nibble(w[0], w[1], w[2], w[3]) + Nibble(w[4], w[5], w[6], w[7])
  {
    ValuePrefix(w, 4);
    ValuePrefix(w, 8);
    assert w[..0] == [] && w[..8] == w;
  }

  lemma EntryHighBits(w: Octet)
    ensures var p := EntryBits(w);
            && p[0] == p[7] == (w[0] != w[4]) && p[1] == (w[1] != w[5]) && p[2] == (w[2] != w[6])
            && p[3] == ((w[0] != w[3]) != w[7]) && p[4] == w[1] && p[5] == w[2] && p[6] == w[3]
  {
  }

  lemma EntryLowBits(w: Octet)
    ensures var p := EntryBits(w);
            && p[8] == ((w[0] != w[1]) != w[5]) && p[9] == ((w[1] != w[2]) != w[6])
            && p[10] == ((w[2] != w[3]) != w[7]) && p[11] == w[3] && p[12] == (w[0] != w[4])
            && p[13] == (w[1] != w[5]) && p[14] == (w[2] != w[6]) && p[15] == (w[3] != w[7])
  {
  }

  lemma EntryHighNibbles(w: Octet)
    ensures var p := EntryBits(w);
            16 * Nibble(p[0], p[1], p[2], p[3]) + Nibble(p[4], p[5], p[6], p[7]) == EntryHigh(w[0], w[1], w[2], w[3], w[4], w[5], w[6], w[7])
  {
    EntryHighBits(w);
  }

  lemma EntryLowNibbles(w: Octet)
    ensures var p := EntryBits(w);
            16 * Nibble(p[8], p[9], p[10], p[11]) + Nibble(p[12], p[13], p[14], p[15]) == EntryLow(w[0], w[1], w[2], w[3], w[4], w[5], w[6], w[7])
  {
    EntryLowBits(w);
  }

  lemma EntryHighValue(w: Octet)
    ensures Value(EntryBits(w)[..8]) == EntryHigh(w[0], w[1], w[2], w[3], w[4], w[5], w[6], w[7])
  {
    EntryHighNibbles(w);
    ValueOfOctet(EntryBits(w)[..8]);
  }

  lemma EntryLowValue(w: Octet)
    ensures Value(EntryBits(w)[8..]) == EntryLow(w[0], w[1], w[2], w[3], w[4], w[5], w[6], w[7])
  {
    EntryLowNibbles(w);
    ValueOfOctet(EntryBits(w)[8..]);
  }

  lemma EntryBitsValue(w: Octet)
    ensures Value(EntryBits(w)) == EntryValue(w[0], w[1], w[2], w[3], w[4], w[5], w[6], w[7])
  {
    var p := EntryBits(w);
    EntryHighValue(w);
    EntryLowValue(w);
    ValueConcat(p[..8], p[8..]);
    assert p == p[..8] + p[8..];
    assert Pow2(8) == 16 * Pow2(4) == 256;
  }

  lemma RowAndColumn(w0: bool, w1: bool, w2: bool, w3: bool, w4: bool, w5: bool, w6: bool, w7: bool)
    ensures var i := 16 * Nibble(w0, w1, w2, w3) + Nibble(w4, w5, w6, w7);
            && i / 8 == 16 * Digit(w0) + 8 * Digit(w1) + 4 * Digit(w2) + 2 * Digit(w3) + Digit(w4) < 32
            && i % 8 == 4 * Digit(w5) + 2 * Digit(w6) + Digit(w7)
  {
  }

  lemma OctetIndex(w: Octet)
    ensures Value(w) / 8 == 16 * Digit(w[0]) + 8 * Digit(w[1]) + 4 * Digit(w[2]) + 2 * Digit(w[3]) + Digit(w[4])
    ensures Value(w) % 8 == 4 * Digit(w[5]) + 2 * Digit(w[6]) + Digit(w[7])
    ensures Value(w) < 256
  {
    ValueOfOctet(w);
    RowAndColumn(w[0], w[1], w[2], w[3], w[4], w[5], w[6], w[7]);
  }

  lemma OctetEntry(w: Octet)
    ensures Value(w) < 256
    ensures Entry(Value(w)) == EntryValue(w[0], w[1], w[2], w[3], w[4], w[5], w[6], w[7])
  {
    OctetIndex(w);
    EntryClosedForm(w[0], w[1], w[2], w[3], w[4], w[5], w[6], w[7]);
  }

  /** Every table entry, as coefficients, is its index times x^8 modulo the generator. */
  lemma EntryIsRaised(w: Octet)
    ensures Value(w) < 256
    ensures ToBits(16, Entry(Value(w))) == Raise(8, w + Zeros(8))
  {
    OctetEntry(w);
    EntryBitsValue(w);
    EntryBitsAreRaised(w);
    ToBitsValue(EntryBits(w));
  }
}
