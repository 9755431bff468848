/** Reading back what was written: the exact condition for it, what every accepted packet looks
    like, and why no strict prefix of a packet is accepted. */
module SrrpRoundTrip {
  import opened Bytes
  import opened Hex
  import opened Srrp

  /** The condition under which a written packet can be read back. */
  predicate Readable(header: seq<byte>, data: seq<byte>) {
    && header != [] && header[0] == '/'
    && (forall j | 0 <= j < |header| :: !PairAt(header, j, '?', '{'))
    && |header| < HEADER_LEN
    && data != [] && data[0] == '{'
  }

  // ---------------------------------------------------------------- fields

  lemma {:induction false} RunEndIs(s: seq<byte>, i: nat, width: nat, e: nat)
    requires i <= e <= |s| && e <= i + width
    requires forall k | i <= k < e :: IsHex(s[k])
    requires e < i + width && e < |s| ==> !IsHex(s[e])
    ensures RunEnd(s, i, width) == e
  {
    var r := RunEnd(s, i, width);
    assert r >= e;
    assert r <= e;
  }

  /** Digits alone are read as the number they stand for. */
  lemma ScanDigits(s: seq<byte>, i: nat, width: nat, e: nat)
    requires i < e <= |s| && e <= i + width && (e < i + width && e < |s| ==> !IsHex(s[e]))
    requires forall k | i <= k < e :: IsHex(s[k])
    requires i + 1 < |s| ==> s[i + 1] != 'x' && s[i + 1] != 'X'
    ensures ScanNumber(s, i, width) == Number(false, RunValue(s[i..e]), e)
  {
    assert IsHex(s[i]);
    RunEndIs(s, i, width, e);
  }

  lemma ScanHeadWritten(s: seq<byte>, leader: byte, len: nat)
    requires len < 65536
    requires |s| > 9 && s[..9] == [leader] + "0,$," + Hex4(len) && !IsHex(s[9])
    ensures ScanHead(s) == Head(leader, 0, '$', len, 9)
  {
    var p := s[..9];
    assert s[0] == p[0] && s[1] == p[1] == '0' && s[2] == p[2] == ',' && s[3] == p[3] == '$' && s[4] == p[4] == ',';
    assert forall k | 5 <= k < 9 :: s[k] == p[k] == Hex4(len)[k - 5];
    ScanDigits(s, 1, |s|, 2);
    ScanDigits(s, 5, 4, 9);
    assert s[5..9] == Hex4(len);
    Hex4Value(len);
    assert s[1..2] == ['0'] && s[1..2][..0] == [];
    assert RunValue(s[1..2]) == 0;
  }

  lemma ScanFieldWritten(s: seq<byte>, i: nat, v: nat, width: nat)
    requires v < 65536 && width >= 4 && FieldAt(s, i, v)
    ensures ScanField(s, i, width) == Field(v, i + 5)
  {
    assert forall k | i + 1 <= k < i + 5 :: s[k] == s[i + 1..i + 5][k - (i + 1)];
    ScanDigits(s, i + 1, width, i + 5);
    Hex4Value(v);
  }

  // ---------------------------------------------------------------- shape of a written text

  lemma PrefixPlain(k: Kind, len: nat, i: nat)
    requires ValidKind(k) && len < 65536 && i < |Prefix(k, len)|
    ensures Prefix(k, len)[i] !in {':', '?', NUL}
  {
    var p := Prefix(k, len);
    assert p[0] == Leader(k);
    assert p[1] == '0' && p[2] == ',' && p[3] == '$' && p[4] == ',';
    if i >= 5 {
      assert p[i] == Fields(k, len)[i - 5];
    }
  }

  lemma TextParts(k: Kind, header: seq<byte>, data: seq<byte>)
    requires CanWrite(k, header, data)
    ensures var s, n := Text(k, header, data), Overhead(k);
            && s[..n - 1] == Prefix(k, WrittenLen(k, header, data)) && s[n - 1] == ':'
            && s[n..n + |header|] == header && s[n + |header|] == '?' && s[n + |header| + 1..] == data
            && IsText(s)
  {
    var s, n, p := Text(k, header, data), Overhead(k), Prefix(k, WrittenLen(k, header, data));
    assert s == p + ":" + header + "?" + data;
    forall i | 0 <= i < |s|
      ensures s[i] != NUL
    {
      if i < n - 1 {
        PrefixPlain(k, WrittenLen(k, header, data), i);
      } else if n <= i < n + |header| {
        assert s[i] == header[i - n];
      } else if i > n + |header| {
        assert s[i] == data[i - (n + |header| + 1)];
      }
    }
  }

  /** Where the reader finds the header: right after the prefix if and only if it starts with '/'. */
  lemma HeaderPlace(k: Kind, header: seq<byte>, data: seq<byte>)
    requires CanWrite(k, header, data)
    ensures FindPair(Text(k, header, data), ':', '/') == Overhead(k) - 1 <==> header != [] && header[0] == '/'
  {
    var s, n := Text(k, header, data), Overhead(k);
    TextParts(k, header, data);
    forall j | 0 <= j < n - 1
      ensures !PairAt(s, j, ':', '/')
    {
      PrefixPlain(k, WrittenLen(k, header, data), j);
      assert s[j] == s[..n - 1][j];
    }
    if header != [] {
      assert s[n] == s[n..n + |header|][0] == header[0];
      if header[0] == '/' {
        FirstPair(s, ':', '/', n - 1);
      }
    }
  }

  /** Where the reader finds the data: right after the header if and only if the header lacks
      "?{" and the data starts with '{'. */
  lemma DataPlace(k: Kind, header: seq<byte>, data: seq<byte>)
    requires CanWrite(k, header, data)
    ensures FindPair(Text(k, header, data), '?', '{') == Overhead(k) + |header| <==>
            (forall j | 0 <= j < |header| :: !PairAt(header, j, '?', '{')) && data != [] && data[0] == '{'
  {
    var s, n := Text(k, header, data), Overhead(k);
    var e := n + |header|;
    TextParts(k, header, data);
    forall j | 0 <= j < |header|
      ensures PairAt(header, j, '?', '{') == PairAt(s, n + j, '?', '{')
    {
      assert s[n + j] == s[n..e][j];
      if j + 1 < |header| {
        assert s[n + j + 1] == s[n..e][j + 1];
      }
    }
    if data != [] {
      assert s[e + 1] == s[e + 1..][0] == data[0];
    }
    if (forall j | 0 <= j < |header| :: !PairAt(header, j, '?', '{')) && data != [] && data[0] == '{' {
      forall j | 0 <= j < e
        ensures !PairAt(s, j, '?', '{')
      {
        if j < n - 1 {
          PrefixPlain(k, WrittenLen(k, header, data), j);
          assert s[j] == s[..n - 1][j];
        } else if j >= n {
          assert PairAt(header, j - n, '?', '{') == PairAt(s, n + (j - n), '?', '{');
        }
      }
      FirstPair(s, '?', '{', e);
    }
    if FindPair(s, '?', '{') == e {
      forall j | 0 <= j < |header|
        ensures !PairAt(header, j, '?', '{')
      {
        assert PairAt(header, j, '?', '{') == PairAt(s, n + j, '?', '{');
      }
    }
  }

  // ---------------------------------------------------------------- reading a written text

  /** A text that starts with the prefix of a written one and the ':' after it. */
  predicate StartsWritten(s: seq<byte>, k: Kind, len: nat) {
    && ValidKind(k) && len < 65536
    && |s| >= Overhead(k) && s[..Overhead(k)] == Prefix(k, len) + ":"
  }

  function Source(k: Kind): nat {
    if k.Request? || k.Response? then k.srcid else 0
  }

  function RequestCrc(k: Kind): nat {
    if k.Response? then k.reqcrc16 else 0
  }

  function WrittenScan(k: Kind, len: nat): Scan {
    Scan(Overhead(k), Leader(k), '$', 0, len, Source(k), RequestCrc(k))
  }

  /** Place i of the text starts a ",%.4x" field. */
  predicate FieldAt(s: seq<byte>, i: nat, v: nat)
    requires v < 65536
  {
    i + 5 < |s| && s[i] == ',' && s[i + 1..i + 5] == Hex4(v) && !IsHex(s[i + 5])
  }

  lemma WrittenHead(s: seq<byte>, k: Kind, len: nat)
    requires StartsWritten(s, k, len)
    ensures |s| > 9 && s[..9] == [Leader(k)] + "0,$," + Hex4(len) && !IsHex(s[9])
  {
    var q := s[..Overhead(k)];
    assert s[..9] == q[..9] && s[9] == q[9];
  }

  lemma WrittenFields(s: seq<byte>, k: Kind, len: nat)
    requires StartsWritten(s, k, len)
    ensures k.Request? || k.Response? ==> FieldAt(s, 9, k.srcid)
    ensures k.Response? ==> FieldAt(s, 14, k.reqcrc16)
  {
    var q := s[..Overhead(k)];
    if k.Request? || k.Response? {
      assert s[9] == q[9] && s[14] == q[14];
      assert s[10..14] == q[10..14] == Hex4(k.srcid);
    }
    if k.Response? {
      assert s[19] == q[19];
      assert s[15..19] == q[15..19] == Hex4(k.reqcrc16);
    }
  }

  lemma ScanRequestWritten(s: seq<byte>, k: Kind, len: nat)
    requires StartsWritten(s, k, len) && k.Request?
    ensures ScanRequest(s) == WrittenScan(k, len)
  {
    WrittenHead(s, k, len);
    ScanHeadWritten(s, REQUEST_LEADER, len);
    WrittenFields(s, k, len);
    ScanFieldWritten(s, 9, k.srcid, 4);
  }

  lemma ScanResponseWritten(s: seq<byte>, k: Kind, len: nat)
    requires StartsWritten(s, k, len) && k.Response?
    ensures ScanResponse(s) == WrittenScan(k, len)
  {
    WrittenHead(s, k, len);
    ScanHeadWritten(s, RESPONSE_LEADER, len);
    WrittenFields(s, k, len);
    ScanFieldWritten(s, 9, k.srcid, 4);
    ScanFieldWritten(s, 14, k.reqcrc16, |s|);
  }

  lemma ScanSubPubWritten(s: seq<byte>, k: Kind, len: nat)
    requires StartsWritten(s, k, len) && !k.Request? && !k.Response?
    ensures ScanSubPub(s) == WrittenScan(k, len)
  {
    WrittenHead(s, k, len);
    ScanHeadWritten(s, Leader(k), len);
  }

  /** The numeric fields of a written text are scanned back from any text that starts with it. */
  lemma ScanWritten(s: seq<byte>, k: Kind, len: nat)
    requires StartsWritten(s, k, len)
    ensures ScanOne(s) == WrittenScan(k, len)
  {
    assert s[0] == s[..Overhead(k)][0] == Leader(k);
    match k
    case Request(_) => ScanRequestWritten(s, k, len);
    case Response(_, _) => ScanResponseWritten(s, k, len);
    case _ => ScanSubPubWritten(s, k, len);
  }

  lemma WrittenStarts(k: Kind, header: seq<byte>, data: seq<byte>, n: nat)
    requires CanWrite(k, header, data) && Overhead(k) <= n <= |Text(k, header, data)|
    ensures StartsWritten(Text(k, header, data)[..n], k, WrittenLen(k, header, data))
  {
    var s := Text(k, header, data);
    TextParts(k, header, data);
    assert s[..n][..Overhead(k)] == s[..Overhead(k) - 1] + [s[Overhead(k) - 1]];
  }

  lemma FinishReadable(k: Kind, header: seq<byte>, data: seq<byte>, m: seq<byte>)
    requires CanWrite(k, header, data) && Readable(header, data)
    requires Write(k, header, data).raw <= m && CString(m) == Text(k, header, data)
    ensures var w := Write(k, header, data);
            Finish(m, WrittenScan(k, w.len)) == Read(w)
  {
    TextParts(k, header, data);
    HeaderPlace(k, header, data);
    DataPlace(k, header, data);
    assert m[..WrittenLen(k, header, data)] == Write(k, header, data).raw;
  }

  lemma FinishOnlyReadable(k: Kind, header: seq<byte>, data: seq<byte>, m: seq<byte>)
    requires CanWrite(k, header, data) && CString(m) == Text(k, header, data)
    requires var w := Write(k, header, data);
             Finish(m, WrittenScan(k, w.len)) == Read(w)
    ensures Readable(header, data)
  {
    var s := Text(k, header, data);
    var h, d := FindPair(s, ':', '/'), FindPair(s, '?', '{');
    assert |s[d + 1..]| == |data|;
    assert d == Overhead(k) + |header|;
    assert |s[h + 1..d]| == |header|;
    HeaderPlace(k, header, data);
    DataPlace(k, header, data);
  }

  lemma ReadWritten(k: Kind, header: seq<byte>, data: seq<byte>, rest: seq<byte>)
    requires CanWrite(k, header, data)
    ensures var m := Write(k, header, data).raw + rest;
            && CString(m) == Text(k, header, data)
            && ReadOne(m) == Finish(m, WrittenScan(k, WrittenLen(k, header, data)))
  {
    var s := Text(k, header, data);
    TextParts(k, header, data);
    assert Write(k, header, data).raw + rest == s + ([NUL] + rest);
    CStringOf(s, [NUL] + rest);
    assert s[..|s|] == s;
    WrittenStarts(k, header, data, |s|);
    ScanWritten(s, k, WrittenLen(k, header, data));
  }

  /** A written packet, with anything behind it, is read back with the same leader, seat, length,
      source, checksum, header and data if and only if it is Readable. */
  lemma RoundTrip(k: Kind, header: seq<byte>, data: seq<byte>, rest: seq<byte>)
    requires CanWrite(k, header, data)
    ensures ReadOne(Write(k, header, data).raw + rest) == Read(Write(k, header, data)) <==> Readable(header, data)
  {
    var m := Write(k, header, data).raw + rest;
    ReadWritten(k, header, data, rest);
    if Readable(header, data) {
      FinishReadable(k, header, data, m);
    }
    if ReadOne(m) == Read(Write(k, header, data)) {
      FinishOnlyReadable(k, header, data, m);
    }
  }

  /** Acceptance depends on the C string alone. */
  lemma RejectedByText(m: seq<byte>, m': seq<byte>)
    requires CString(m) == CString(m')
    ensures ReadOne(m).NoPacket? == ReadOne(m').NoPacket?
  {
  }

  /** Without a "?{" there is no packet. */
  lemma NoDataNoPacket(m: seq<byte>)
    requires FindPair(CString(m), '?', '{') == |CString(m)|
    ensures ReadOne(m) == NoPacket
  {
  }

  lemma LongPrefixScanned(k: Kind, header: seq<byte>, data: seq<byte>, n: nat)
    requires CanWrite(k, header, data) && Overhead(k) <= n <= |Text(k, header, data)|
    ensures var m := Text(k, header, data)[..n];
            CString(m) == m && ScanOne(m) == WrittenScan(k, WrittenLen(k, header, data))
  {
    var m := Text(k, header, data)[..n];
    TextParts(k, header, data);
    assert m + [] == m;
    CStringOf(m, []);
    WrittenStarts(k, header, data, n);
    ScanWritten(m, k, WrittenLen(k, header, data));
  }

  lemma LongPrefixRejected(k: Kind, header: seq<byte>, data: seq<byte>, n: nat)
    requires CanWrite(k, header, data) && Readable(header, data)
    requires Overhead(k) + |header| + 2 <= n < |Text(k, header, data)|
    ensures ReadOne(Text(k, header, data)[..n]) == NoPacket
  {
    var s := Text(k, header, data);
    LongPrefixScanned(k, header, data, n);
    assert FindPair(s[..n], '?', '{') == Overhead(k) + |header| by {
      DataPlace(k, header, data);
      FirstPairOfPrefix(s, '?', '{', n);
    }
    assert FindPair(s[..n], ':', '/') == Overhead(k) - 1 by {
      HeaderPlace(k, header, data);
      FirstPairOfPrefix(s, ':', '/', n);
    }
  }

  /** Every strict prefix of a readable packet's text is rejected. */
  lemma PrefixRejected(k: Kind, header: seq<byte>, data: seq<byte>, n: nat)
    requires CanWrite(k, header, data) && Readable(header, data)
    requires n < |Text(k, header, data)|
    ensures ReadOne(Text(k, header, data)[..n]) == NoPacket
  {
    var s := Text(k, header, data);
    if Overhead(k) + |header| + 2 <= n {
      LongPrefixRejected(k, header, data, n);
    } else {
      TextParts(k, header, data);
      assert s[..n] + [] == s[..n];
      CStringOf(s[..n], []);
      DataPlace(k, header, data);
      FirstPairOfPrefix(s, '?', '{', n);
      NoDataNoPacket(s[..n]);
    }
  }

  // ---------------------------------------------------------------- accepted packets

  lemma FinishShape(m: seq<byte>, sc: Scan)
    requires sc.Scan? && Finish(m, sc).Read?
    ensures var p := Finish(m, sc).pac;
            && Readable(p.header, p.data) && IsText(p.header) && IsText(p.data)
            && p.len == sc.overhead + |p.header| + 1 + |p.data| + 1
  {
    var s := CString(m);
    var p := Finish(m, sc).pac;
    var h, d := FindPair(s, ':', '/'), FindPair(s, '?', '{');
    forall j | 0 <= j < |p.header|
      ensures !PairAt(p.header, j, '?', '{')
    {
      assert !PairAt(s, h + 1 + j, '?', '{');
    }
  }

  /** Whatever is accepted has a header and data that the writers can send again, a leader, a
      length made of the reader's fixed part and the two, and 16-bit fields. */
  lemma AcceptedShape(m: seq<byte>)
    requires ReadOne(m).Read?
    ensures var p := ReadOne(m).pac;
            && Readable(p.header, p.data) && IsText(p.header) && IsText(p.data)
            && IsLeader(p.leader) && p.srcid < 65536 && p.reqcrc16 < 65536
            && p.len == ExpectedOverhead(p.leader) + |p.header| + 1 + |p.data| + 1 < 65536
  {
    FinishShape(m, ScanOne(CString(m)));
  }

  lemma FinishLength(m: seq<byte>, sc: Scan)
    requires sc.Scan? && Finish(m, sc).Read?
    ensures var s, p := CString(m), Finish(m, sc).pac;
            p.len == |s| + 1 <==> FindPair(s, ':', '/') == sc.overhead - 1
  {
  }

  /** An accepted packet's announced length covers exactly its text and NUL if and only if its
      header stands where the writers put it; the reader itself only compares lengths. */
  lemma AcceptedLength(m: seq<byte>)
    requires ReadOne(m).Read?
    ensures var s, p := CString(m), ReadOne(m).pac;
            p.len == |s| + 1 <==> FindPair(s, ':', '/') == ExpectedOverhead(p.leader) - 1
  {
    FinishLength(m, ScanOne(CString(m)));
  }

  /** A request with a two-digit sequence number and the shortest header and data. */
  predicate TwoDigitRequest(s: seq<byte>) {
    && |s| == 19 && s[0] == '>' && IsHex(s[1]) && IsHex(s[2]) && s[3] == ',' && s[4] == '$' && s[5] == ','
    && s[6..10] == Hex4(19) && s[10] == ','
    && IsHex(s[11]) && IsHex(s[12]) && IsHex(s[13]) && IsHex(s[14])
    && s[15] == ':' && s[16] == '/' && s[17] == '?' && s[18] == '{'
  }

  lemma TwoDigitNumbers(s: seq<byte>)
    requires TwoDigitRequest(s)
    ensures ScanNumber(s, 1, 19).Number? && ScanNumber(s, 1, 19).next == 3
    ensures ScanNumber(s, 6, 4) == Number(false, 19, 10)
  {
    ScanDigits(s, 1, 19, 3);
    assert forall k | 6 <= k < 10 :: s[k] == s[6..10][k - 6];
    ScanDigits(s, 6, 4, 10);
    Hex4Value(19);
  }

  lemma TwoDigitSource(s: seq<byte>)
    requires TwoDigitRequest(s)
    ensures ScanField(s, 10, 4).Field?
  {
    assert forall k | 11 <= k < 15 :: IsHex(s[k]);
    ScanDigits(s, 11, 4, 15);
  }

  lemma TwoDigitHead(s: seq<byte>)
    requires TwoDigitRequest(s)
    ensures ScanHead(s).Head? && ScanHead(s).len == 19 && ScanHead(s).next == 10 && ScanField(s, 10, 4).Field?
  {
    TwoDigitNumbers(s);
    TwoDigitSource(s);
  }

  lemma TwoDigitScan(s: seq<byte>) returns (sc: Scan)
    requires TwoDigitRequest(s)
    ensures sc == ScanOne(s) && sc.Scan? && sc.overhead == 15 && sc.len == 19
  {
    TwoDigitHead(s);
    sc := ScanOne(s);
  }

  /** The two can differ: such a text of nineteen bytes is accepted as a packet of nineteen, so
      its NUL is left behind in the buffer. */
  lemma AcceptedLengthCanDiffer(s: seq<byte>)
    requires TwoDigitRequest(s)
    ensures ReadOne(s).Read? && ReadOne(s).pac.len == 19 == |s|
  {
    var sc := TwoDigitScan(s);
    TwoDigitFinish(s, sc);
  }

  lemma TwoDigitFinish(s: seq<byte>, sc: Scan)
    requires TwoDigitRequest(s) && sc.Scan? && sc.overhead == 15 && sc.len == 19
    ensures CString(s) == s && Finish(s, sc).Read? && Finish(s, sc).pac.len == 19
  {
    assert forall k | 6 <= k < 10 :: s[k] == s[6..10][k - 6];
    assert IsText(s);
    CStringOf(s, []);
    assert s + [] == s;
    FirstPair(s, ':', '/', 15);
    FirstPair(s, '?', '{', 17);
  }

  /** Such texts, written out: a sequence number and a source of these digits. */
  function TwoDigitText(x: byte, y: byte, source: seq<byte>): (s: seq<byte>)
    requires |source| == 4
    ensures |s| == 19
  {
    var len := Hex4(19);
    ['>', x, y, ',', '$', ',', len[0], len[1], len[2], len[3], ',', source[0], source[1], source[2], source[3], ':', '/', '?', '{']
  }

  lemma TwoDigitRequestExists(x: byte, y: byte, source: seq<byte>)
    requires IsHex(x) && IsHex(y) && |source| == 4 && forall k | 0 <= k < 4 :: IsHex(source[k])
    ensures TwoDigitRequest(TwoDigitText(x, y, source))
  {
    var s, len := TwoDigitText(x, y, source), Hex4(19);
    assert s[6..10] == [len[0], len[1], len[2], len[3]] == len;
  }
}
