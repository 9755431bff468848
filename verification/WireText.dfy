/** The texts themselves: what the writers put on the wire, and which numbers the readers accept. */
module WireText {
  import opened Bytes
  import opened Hex
  import opened Srrp
  import opened SrrpRoundTrip

  // ---------------------------------------------------------------- digits

  const DIGITS: seq<byte> := ['0', '1', '2', '3', '4', '5', '6', '7', '8', '9', 'a', 'b', 'c', 'd', 'e', 'f']
  const CAPITALS: seq<byte> := ['A', 'B', 'C', 'D', 'E', 'F']

  /** Hexadecimal digits are printed in lower case and read in both. */
  lemma DigitTexts(v: nat)
    requires v < 16
    ensures HexDigit(v) == DIGITS[v] && IsHex(DIGITS[v]) && HexValue(DIGITS[v]) == v
    ensures v >= 10 ==> IsHex(CAPITALS[v - 10]) && HexValue(CAPITALS[v - 10]) == v
  {
    assert DIGITS[0] == '0' && DIGITS[1] == '1' && DIGITS[2] == '2' && DIGITS[3] == '3';
    assert DIGITS[4] == '4' && DIGITS[5] == '5' && DIGITS[6] == '6' && DIGITS[7] == '7';
    assert DIGITS[8] == '8' && DIGITS[9] == '9' && DIGITS[10] == 'a' && DIGITS[11] == 'b';
    assert DIGITS[12] == 'c' && DIGITS[13] == 'd' && DIGITS[14] == 'e' && DIGITS[15] == 'f';
  }

  // ---------------------------------------------------------------- written packets

  /** The first byte, the sequence number and the seat. */
  function Start(leader: byte): seq<byte> {
    [leader, '0', ',', '$', ',']
  }

  /** What every kind of packet looks like on the wire: the announced length is that of the bytes,
      the terminating NUL included. */
  lemma WireFormat(k: Kind, header: seq<byte>, data: seq<byte>)
    requires CanWrite(k, header, data)
    ensures var w := Write(k, header, data);
            && w.seat == '$' && w.seqno == 0 && w.data == data
            && w.header == if |header| < 128 then header else header[..127]
    ensures var raw, len := Write(k, header, data).raw, Write(k, header, data).len;
            && |raw| == len < 65536
            && raw == match k
               case Request(src) => Start('>') + (Hex4(len) + [','] + Hex4(src)) + [':'] + header + ['?'] + data + [NUL]
               case Response(src, crc) =>
                 Start('<') + (Hex4(len) + [','] + Hex4(src) + [','] + Hex4(crc)) + [':'] + header + ['?'] + data + [NUL]
               case Subscribe => Start('#') + Hex4(len) + [':'] + header + ['?'] + data + [NUL]
               case Unsubscribe => Start('%') + Hex4(len) + [':'] + header + ['?', '{', '}', NUL]
               case Publish => Start('@') + Hex4(len) + [':'] + header + ['?'] + data + [NUL]
  {
    var len := WrittenLen(k, header, data);
    var s := Prefix(k, len) + ":" + header + "?" + data;
    assert [Leader(k)] + "0,$," == Start(Leader(k));
    if k.Unsubscribe? {
      assert s + [NUL] == Start('%') + Hex4(len) + [':'] + header + ['?', '{', '}', NUL];
    }
  }

  /** A header that does not fit the packet's array leads the reader out of it, and only that. */
  lemma LongHeaderOverruns(k: Kind, header: seq<byte>, data: seq<byte>, rest: seq<byte>)
    requires CanWrite(k, header, data) && header != [] && header[0] == '/' && data != [] && data[0] == '{'
    requires forall j | 0 <= j < |header| :: !PairAt(header, j, '?', '{')
    ensures ReadOne(Write(k, header, data).raw + rest) == Overrun <==> |header| >= 128
  {
    ReadWritten(k, header, data, rest);
    HeaderPlace(k, header, data);
    DataPlace(k, header, data);
    TextParts(k, header, data);
  }

  /** The reader leaves its arrays exactly when the numbers are there, both marks are there, and the
      announced length is negative, or the data's mark does not stand behind the header's, or 128 bytes
      or more stand between them. */
  lemma OverrunIff(m: seq<byte>)
    ensures var s, sc := CString(m), ScanOne(CString(m));
            var h, d := FindPair(s, ':', '/'), FindPair(s, '?', '{');
            ReadOne(m) == Overrun <==> sc.Scan? && h < |s| && d < |s| && (sc.len < 0 || d <= h || d - h > 128)
  {
  }

  // ---------------------------------------------------------------- numbers as sscanf reads them

  /** White space is the blank and the five control characters from tab to carriage return. */
  lemma WhiteSpace(c: byte)
    ensures IsSpace(c) <==> c as int in {9, 10, 11, 12, 13, 32}
  {
  }

  /** White space, an optional sign, an optional 0x, and digits. */
  predicate NumberText(space: seq<byte>, sign: seq<byte>, base: seq<byte>, digits: seq<byte>) {
    && (forall i | 0 <= i < |space| :: IsSpace(space[i]))
    && (sign == [] || sign == ['+'] || sign == ['-'])
    && (base == [] || base == ['0', 'x'] || base == ['0', 'X'])
    && digits != [] && forall i | 0 <= i < |digits| :: IsHex(digits[i])
  }

  lemma {:induction false} SpacePassed(s: seq<byte>, i: nat, j: nat)
    requires i <= j <= |s| && (forall k | i <= k < j :: IsSpace(s[k])) && (j < |s| ==> !IsSpace(s[j]))
    ensures PastSpace(s, i) == j
  {
    var r := PastSpace(s, i);
    assert r >= j && r <= j;
  }

  /** White space at i..j, a sign at j..k, a base prefix at k..f, digits at f..e, no more of them
      within the width. */
  ghost predicate NumberPlaced(s: seq<byte>, i: nat, j: nat, k: nat, f: nat, e: nat, width: nat) {
    && i <= j <= k <= f < e <= |s| && e - j <= width
    && (forall x | i <= x < j :: IsSpace(s[x])) && (forall x | f <= x < e :: IsHex(s[x]))
    && (k == j || (k == j + 1 && IsSign(s[j])))
    && (f == k || (f == k + 2 && BaseAt(s, k)))
    && (e - j < width && e < |s| ==> !IsHex(s[e]))
    && (f == k && k - j + 2 <= width ==> !BaseAt(s, k))
  }

  lemma NumberAt(s: seq<byte>, i: nat, j: nat, k: nat, f: nat, e: nat, width: nat)
    requires NumberPlaced(s, i, j, k, f, e, width)
    ensures ScanNumber(s, i, width) == Number(k > j && s[j] == '-', RunValue(s[f..e]), e)
  {
    assert IsHex(s[f]) && !IsSpace(s[j]);
    SpacePassed(s, i, j);
    RunEndIs(s, f, width - (f - j), e);
  }

  /** Where white space, sign, base prefix and digits stand one after the other, a number that fits the
      field width is read with its sign and value up to its last digit: where it fills the width
      whatever follows, otherwise where no further digit does. A lone zero in front of an x is not one:
      there the x is taken for a base prefix. */
  lemma NumberRead(s: seq<byte>, i: nat, j: nat, k: nat, f: nat, e: nat, width: nat)
    requires i <= j <= k <= f <= e <= |s| && NumberText(s[i..j], s[j..k], s[k..f], s[f..e])
    requires e - j <= width && (e - j < width && e < |s| ==> !IsHex(s[e]))
    requires f == k && s[f..e] == ['0'] && k - j + 2 <= width && e < |s| ==> s[e] != 'x' && s[e] != 'X'
    ensures ScanNumber(s, i, width) == Number(s[j..k] == ['-'], RunValue(s[f..e]), e)
  {
    assert forall x | i <= x < j :: s[x] == s[i..j][x - i];
    assert forall x | f <= x < e :: s[x] == s[f..e][x - f];
    assert k > j ==> s[j] == s[j..k][0];
    assert f > k ==> s[k] == s[k..f][0] && s[k + 1] == s[k..f][1];
    if f == k && k - j + 2 <= width {
      NoBase(s, f, e);
    }
    NumberAt(s, i, j, k, f, e, width);
  }

  /** Whatever is read as a number is such a text. */
  lemma NumberFound(s: seq<byte>, i: nat, width: nat) returns (j: nat, k: nat, f: nat)
    requires i <= |s| && ScanNumber(s, i, width).Number?
    ensures var e := ScanNumber(s, i, width).next;
            i <= j <= k <= f <= e <= |s| && e - j <= width && NumberText(s[i..j], s[j..k], s[k..f], s[f..e])
  {
    j := PastSpace(s, i);
    k := if width > 0 && j < |s| && IsSign(s[j]) then j + 1 else j;
    f := if width - (k - j) >= 2 && BaseAt(s, k) then k + 2 else k;
    var e := ScanNumber(s, i, width).next;
    assert e == RunEnd(s, f, width - (f - j)) && e > f;
    SpelledOut(s, i, j, k, f, e);
  }

  lemma SpelledOut(s: seq<byte>, i: nat, j: nat, k: nat, f: nat, e: nat)
    requires i <= j <= k <= f < e <= |s|
    requires (forall x | i <= x < j :: IsSpace(s[x])) && (forall x | f <= x < e :: IsHex(s[x]))
    requires (k == j || (k == j + 1 && IsSign(s[j]))) && (f == k || (f == k + 2 && BaseAt(s, k)))
    ensures NumberText(s[i..j], s[j..k], s[k..f], s[f..e])
  {
    assert k > j ==> s[j..k] == [s[j]];
    assert f > k ==> s[k..f] == [s[k], s[k + 1]];
  }

  lemma NoBase(s: seq<byte>, f: nat, e: nat)
    requires f < e <= |s| && forall x | f <= x < e :: IsHex(s[x])
    requires s[f..e] == ['0'] && e < |s| ==> s[e] != 'x' && s[e] != 'X'
    ensures !BaseAt(s, f)
  {
    if e == f + 1 {
      assert s[f..e] == [s[f]];
    }
  }

  /** Digits from i up to e, none behind them, and no base prefix. */
  predicate DigitsTo(s: seq<byte>, i: nat, e: nat) {
    && i < e <= |s| && (forall x | i <= x < e :: IsHex(s[x])) && (e < |s| ==> !IsHex(s[e]))
    && (i + 1 < |s| ==> s[i + 1] != 'x' && s[i + 1] != 'X')
  }

  /** The sequence number may have any number of digits, the length up to four. */
  lemma HeadRead(s: seq<byte>, e: nat, f: nat)
    requires DigitsTo(s, 1, e) && e + 3 <= f && DigitsTo(s, e + 3, f) && f - (e + 3) <= 4
    requires s[e] == ',' && s[e + 2] == ','
    ensures ScanHead(s) == Head(s[0], Narrow(false, RunValue(s[1..e])), s[e + 1], RunValue(s[e + 3..f]), f)
  {
    ScanDigits(s, 1, |s|, e);
    ScanDigits(s, e + 3, 4, f);
  }

  lemma FieldRead(s: seq<byte>, h: nat, width: nat, a: nat)
    requires h < |s| && s[h] == ',' && DigitsTo(s, h + 1, a) && a - (h + 1) <= width
    ensures ScanField(s, h, width) == Field(Narrow(false, RunValue(s[h + 1..a])), a)
    ensures width <= 4 ==> Narrow(false, RunValue(s[h + 1..a])) == RunValue(s[h + 1..a])
  {
    ScanDigits(s, h + 1, width, a);
    if width <= 4 {
      RunValueBound(s[h + 1..a]);
    }
  }

  /** A request's source may have up to four digits. */
  lemma RequestRead(s: seq<byte>, h: nat, a: nat)
    requires ScanHead(s).Head? && h == ScanHead(s).next
    requires h < |s| && s[h] == ',' && DigitsTo(s, h + 1, a) && a - (h + 1) <= 4
    ensures var head := ScanHead(s);
            ScanRequest(s) == Scan(15, head.leader, head.seat, head.seqno, head.len, RunValue(s[h + 1..a]), 0)
  {
    FieldRead(s, h, 4, a);
  }

  /** So may a response's; its checksum may have any number of digits. */
  lemma ResponseRead(s: seq<byte>, h: nat, a: nat, b: nat)
    requires ScanHead(s).Head? && h == ScanHead(s).next
    requires h < |s| && s[h] == ',' && DigitsTo(s, h + 1, a) && a - (h + 1) <= 4
    requires a < |s| && s[a] == ',' && DigitsTo(s, a + 1, b)
    ensures var head := ScanHead(s);
            ScanResponse(s) == Scan(20, head.leader, head.seat, head.seqno, head.len, RunValue(s[h + 1..a]),
                                    Narrow(false, RunValue(s[a + 1..b])))
  {
    FieldRead(s, h, 4, a);
    FieldRead(s, a, |s|, b);
  }

  /** A subscription, unsubscription or publication has nothing between its head and its header. */
  lemma SubPubRead(s: seq<byte>)
    requires ScanHead(s).Head?
    ensures var head := ScanHead(s); ScanSubPub(s) == Scan(10, head.leader, head.seat, head.seqno, head.len, 0, 0)
  {
  }

  lemma ScanKeepsLeader(s: seq<byte>)
    requires ScanOne(s).Scan?
    ensures s != [] && ScanOne(s).leader == s[0]
  {
  }

  lemma FinishFields(m: seq<byte>, sc: Scan, p: Packet)
    requires sc.Scan? && Finish(m, sc) == Read(p)
    ensures sc == Scan(sc.overhead, p.leader, p.seat, p.seqno, p.len, p.srcid, p.reqcrc16)
    ensures var s := CString(m);
            var h, d := FindPair(s, ':', '/'), FindPair(s, '?', '{');
            h < d < |s| && p.header == s[h + 1..d] && p.data == s[d + 1..] && s[h] == ':' && s[d] == '?'
  {
  }

  lemma SplitText(s: seq<byte>, h: nat, d: nat)
    requires h < d < |s|
    ensures s == s[..h] + [s[h]] + s[h + 1..d] + [s[d]] + s[d + 1..]
  {
  }

  /** An accepted packet has the fields that were scanned, starts with its leader, and its text is what
      stands before ":/", a colon, the header, a question mark and the data. */
  lemma AcceptedFields(m: seq<byte>, s: seq<byte>, p: Packet)
    requires s == CString(m) && ReadOne(m) == Read(p)
    ensures ScanOne(s) == Scan(ExpectedOverhead(p.leader), p.leader, p.seat, p.seqno, p.len, p.srcid, p.reqcrc16)
    ensures var h := FindPair(s, ':', '/');
            s != [] && p.leader == s[0] && h <= |s| && s == s[..h] + [':'] + p.header + ['?'] + p.data
  {
    FinishFields(m, ScanOne(s), p);
    ScanKeepsLeader(s);
    SplitText(s, FindPair(s, ':', '/'), FindPair(s, '?', '{'));
  }

  /** What a 16-bit field keeps of a number: its residue, the negative one's counted back from zero,
      unless it is beyond 64 bits. */
  lemma NarrowIsResidue(negative: bool, v: nat)
    ensures v < 0x1_0000_0000_0000_0000 && !negative ==> (v - Narrow(negative, v)) % 65536 == 0
    ensures v < 0x1_0000_0000_0000_0000 && negative ==> (v + Narrow(negative, v)) % 65536 == 0
    ensures v >= 0x1_0000_0000_0000_0000 ==> Narrow(negative, v) == 65535
  {
    var q, r := v / 65536, v % 65536;
    assert v == 65536 * q + r;
    if v < 0x1_0000_0000_0000_0000 && negative && r != 0 {
      assert v + Narrow(negative, v) == 65536 * (q + 1);
    }
  }
}
