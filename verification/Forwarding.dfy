/** What a service reads from the bytes the bus forwards: exactly when it is the packet that the bus
    accepted. */
module Forwarding {
  import opened Bytes
  import opened Srrp

  /** Only the C string and the announced number of bytes matter to the reader. */
  lemma SameTextSamePacket(m: seq<byte>, m': seq<byte>, p: Packet)
    requires ReadOne(m) == Read(p) && CString(m) == CString(m')
    requires p.len <= |m| && p.len <= |m'| && m[..p.len] == m'[..p.len]
    ensures ReadOne(m') == Read(p)
  {
    FinishSame(m, m', ScanOne(CString(m)));
  }

  lemma FinishSame(m: seq<byte>, m': seq<byte>, sc: Scan)
    requires sc.Scan? && CString(m) == CString(m')
    requires 0 <= sc.len <= |m| && sc.len <= |m'| && m[..sc.len] == m'[..sc.len]
    ensures Finish(m, sc) == Finish(m', sc)
  {
  }

  lemma FinishParts(m: seq<byte>, sc: Scan, p: Packet)
    requires sc.Scan? && Finish(m, sc) == Read(p)
    ensures var d := FindPair(CString(m), '?', '{');
            && d < |CString(m)| && |p.data| == |CString(m)| - d - 1
            && p.raw == m[..if p.len < |m| then p.len else |m|]
  {
  }

  /** Where an accepted packet's data and bytes come from. */
  lemma AcceptedParts(m: seq<byte>, p: Packet)
    requires ReadOne(m) == Read(p)
    ensures var d := FindPair(CString(m), '?', '{');
            && d < |CString(m)| && |p.data| == |CString(m)| - d - 1
            && p.raw == m[..if p.len < |m| then p.len else |m|]
  {
    FinishParts(m, ScanOne(CString(m)), p);
  }

  lemma TextAndNul(m: seq<byte>, n: nat, rest: seq<byte>)
    requires |CString(m)| < n <= |m|
    ensures CString(m[..n] + rest) == CString(m) && (m[..n] + rest)[..n] == m[..n]
  {
    var s := CString(m);
    assert m[..n] + rest == s + (m[|s|..n] + rest);
    CStringOf(s, m[|s|..n] + rest);
  }

  lemma ForwardedReadsBack(m: seq<byte>, p: Packet, rest: seq<byte>)
    requires ReadOne(m) == Read(p) && |CString(m)| < p.len <= |m|
    ensures ReadOne(p.raw + rest) == Read(p)
  {
    AcceptedParts(m, p);
    assert p.raw == m[..p.len];
    TextAndNul(m, p.len, rest);
    SameTextSamePacket(m, p.raw + rest, p);
  }

  /** Bytes announced beyond the memory: a further byte behind them is taken for the packet's. */
  lemma TooLong(m: seq<byte>, p: Packet)
    requires ReadOne(m) == Read(p) && p.len > |m|
    ensures ReadOne(p.raw + [NUL]) != Read(p)
  {
    AcceptedParts(m, p);
    var m' := m + [NUL];
    assert p.raw == m;
    if ReadOne(m') == Read(p) {
      AcceptedParts(m', p);
    }
  }

  /** A text without its NUL runs into what follows. */
  lemma NoNul(m: seq<byte>, p: Packet)
    requires ReadOne(m) == Read(p) && p.len == |CString(m)| <= |m|
    ensures ReadOne(p.raw + ['x']) != Read(p)
  {
    var s := CString(m);
    var m' := s + ['x'];
    AcceptedParts(m, p);
    assert p.raw == s;
    assert CString(m') == m' by {
      assert m' + [] == m';
      CStringOf(m', []);
    }
    var d := FindPair(s, '?', '{');
    assert forall j | 0 <= j < d :: PairAt(m', j, '?', '{') == PairAt(s, j, '?', '{');
    FirstPair(m', '?', '{', d);
    if ReadOne(m') == Read(p) {
      AcceptedParts(m', p);
    }
  }

  /** A text cut short has less data, or none. */
  lemma TooShort(m: seq<byte>, p: Packet)
    requires ReadOne(m) == Read(p) && p.len < |CString(m)|
    ensures ReadOne(p.raw + [NUL]) != Read(p)
  {
    var s := CString(m);
    AcceptedParts(m, p);
    assert p.raw == s[..p.len];
    CStringOf(s[..p.len], [NUL]);
    FirstPairOfPrefix(s, '?', '{', p.len);
    if ReadOne(s[..p.len] + [NUL]) == Read(p) {
      AcceptedParts(s[..p.len] + [NUL], p);
    }
  }

  /** The bytes the bus forwards for a packet it accepted are read by the service, whatever follows
      them, as that packet if and only if the announced length covers the text and its NUL and no
      more than was there. */
  lemma ForwardedReadsBackIff(m: seq<byte>, p: Packet)
    requires ReadOne(m) == Read(p)
    ensures (forall rest :: ReadOne(p.raw + rest) == Read(p)) <==> |CString(m)| < p.len <= |m|
  {
    if |CString(m)| < p.len <= |m| {
      forall rest
        ensures ReadOne(p.raw + rest) == Read(p)
      {
        ForwardedReadsBack(m, p, rest);
      }
    } else if p.len > |m| {
      TooLong(m, p);
    } else if p.len == |CString(m)| {
      NoNul(m, p);
    } else {
      TooShort(m, p);
    }
  }
}
