/** From a byte stream to packets: the loop that parses an unread buffer, its progress, and when
    a stream cut into chunks comes out as exactly the packets that were written. */
module Framing {
  import opened Bytes
  import opened Srrp
  import opened SrrpRoundTrip

  // ---------------------------------------------------------------- parsing a buffer

  /** A packet reader on NUL-terminated memory, such as ReadOne. */
  type Reader = seq<byte> -> ReadResult

  /** Accepted packets have a positive length. */
  ghost predicate Progressive(read: Reader) {
    forall m :: read(m).Read? ==> read(m).pac.len > 0
  }

  lemma ReadOneProgressive()
    ensures Progressive(ReadOne)
  {
    forall m | ReadOne(m).Read?
      ensures ReadOne(m).pac.len > 0
    {
      AcceptedShape(m);
    }
  }

  /** What a run takes out of a buffer, in order, and what it leaves unread. */
  datatype Parsed = Parsed(packets: seq<Packet>, rest: seq<byte>, overrun: bool)

  /** atbuf_read_advance on the unread bytes. */
  function Advance(rx: seq<byte>, n: nat): seq<byte> {
    if n > |rx| then [] else rx[n..]
  }

  /** The packets at the front of the unread bytes, which the buffer keeps NUL-terminated. */
  function Extract(read: Reader, rx: seq<byte>): (r: Parsed)
    requires Progressive(read)
    ensures |r.rest| <= |rx| && r.rest == rx[|rx| - |r.rest|..]
    ensures r.packets != [] ==> |r.rest| < |rx|
    decreases |rx|
  {
    if rx == [] then Parsed([], [], false)
    else
      match read(rx + [NUL])
      case Overrun => Parsed([], rx, true)
      case NoPacket => Parsed([], rx, false)
      case Read(pac) =>
        var r := Extract(read, Advance(rx, pac.len));
        Parsed([pac] + r.packets, r.rest, r.overrun)
  }

  /** What is left of unparsable bytes once the parse timeout has passed. */
  function Resync(rx: seq<byte>): (rest: seq<byte>)
    requires rx != []
    ensures |rest| < |rx| && rest == rx[|rx| - |rest|..]
  {
    var o := NextPacketOffset(NUL, rx + [NUL]);
    if o <= 0 then [] else Advance(rx, o)
  }

  /** parse_packet on the unread bytes, with its reader. expired: the parse timeout since the
      last arrival has passed. Every step shortens the unread bytes or stops, and a run that
      finds the timeout passed always shortens them. */
  function ParseWith(read: Reader, rx: seq<byte>, expired: bool): (r: Parsed)
    requires Progressive(read)
    ensures |r.rest| <= |rx| && r.rest == rx[|rx| - |r.rest|..]
    ensures r.packets != [] ==> |r.rest| < |rx|
    ensures expired && rx != [] && !r.overrun ==> |r.rest| < |rx|
  {
    var r := Extract(read, rx);
    if expired && !r.overrun && r.rest != [] then Parsed(r.packets, Resync(r.rest), false) else r
  }

  // ---------------------------------------------------------------- a stream of frames

  /** A packet and the bytes that carry it. */
  datatype Frame = Frame(wire: seq<byte>, pac: Packet)

  /** The reader takes the frame whole, whatever follows it, and nothing of it while its text is
      incomplete. */
  ghost predicate Framed(read: Reader, f: Frame) {
    && 2 <= |f.wire| == f.pac.len && f.wire[|f.wire| - 1] == NUL
    && (forall rest :: read(f.wire + rest) == Read(f.pac))
    && (forall n: nat | n + 1 < |f.wire| :: read(f.wire[..n] + [NUL]) == NoPacket)
  }

  ghost predicate AllFramed(read: Reader, fs: seq<Frame>) {
    forall i | 0 <= i < |fs| :: Framed(read, fs[i])
  }

  function Packets(fs: seq<Frame>): seq<Packet> {
    if fs == [] then [] else [fs[0].pac] + Packets(fs[1..])
  }

  function Stream(fs: seq<Frame>): seq<byte> {
    if fs == [] then [] else fs[0].wire + Stream(fs[1..])
  }

  /** A cut after n bytes of the stream separates a packet from its final NUL. */
  predicate CutsOffNul(fs: seq<Frame>, n: nat): (cut: bool)
    ensures cut ==> Complete(fs, n) < |fs|
    decreases |fs|
  {
    fs != [] && if n < |fs[0].wire| then n + 1 == |fs[0].wire| else CutsOffNul(fs[1..], n - |fs[0].wire|)
  }

  /** How many packets are complete within n bytes. */
  function Complete(fs: seq<Frame>, n: nat): (j: nat)
    ensures j <= |fs|
    decreases |fs|
  {
    if fs == [] || n < |fs[0].wire| then 0 else 1 + Complete(fs[1..], n - |fs[0].wire|)
  }

  /** How many bytes of the next packet are within n bytes. */
  function Partial(fs: seq<Frame>, n: nat): (p: nat)
    ensures p <= n
    decreases |fs|
  {
    if fs == [] || n < |fs[0].wire| then n else Partial(fs[1..], n - |fs[0].wire|)
  }

  lemma ExtractOne(read: Reader, f: Frame, rest: seq<byte>)
    requires Progressive(read) && Framed(read, f)
    ensures var r := Extract(read, rest);
            Extract(read, f.wire + rest) == Parsed([f.pac] + r.packets, r.rest, r.overrun)
  {
    var rx := f.wire + rest;
    assert rx + [NUL] == f.wire + (rest + [NUL]);
    assert read(f.wire + (rest + [NUL])) == Read(f.pac);
    assert Advance(rx, |f.wire|) == rest;
  }

  lemma ExtractPart(read: Reader, f: Frame, n: nat)
    requires Progressive(read) && Framed(read, f) && n < |f.wire|
    ensures Extract(read, f.wire[..n])
         == if n + 1 < |f.wire| then Parsed([], f.wire[..n], false) else Parsed([f.pac], [], false)
  {
    var rx := f.wire[..n];
    if n + 1 < |f.wire| {
      assert read(f.wire[..n] + [NUL]) == NoPacket;
    } else {
      assert rx + [NUL] == f.wire == f.wire + [];
      assert read(f.wire + []) == Read(f.pac);
      assert Advance(rx, |f.wire|) == [];
    }
  }

  lemma StreamPrefix(fs: seq<Frame>, n: nat)
    requires fs != [] && n <= |Stream(fs)|
    ensures var w := fs[0].wire;
            Stream(fs)[..n] == if n < |w| then w[..n] else w + Stream(fs[1..])[..n - |w|]
  {
  }

  lemma AllFramedTail(read: Reader, fs: seq<Frame>, j: nat)
    requires AllFramed(read, fs) && j <= |fs|
    ensures AllFramed(read, fs[j..])
  {
  }

  /** The packets complete within n bytes, and the bytes of the next one. */
  function Delivered(fs: seq<Frame>, n: nat): Parsed
    requires n <= |Stream(fs)|
    decreases |fs|
  {
    if fs == [] || n < |fs[0].wire| then Parsed([], Stream(fs)[..n], false)
    else
      var r := Delivered(fs[1..], n - |fs[0].wire|);
      Parsed([fs[0].pac] + r.packets, r.rest, false)
  }

  lemma ExtractFirst(read: Reader, fs: seq<Frame>, n: nat)
    requires Progressive(read) && fs != [] && Framed(read, fs[0])
    requires |fs[0].wire| <= n <= |Stream(fs)|
    requires Extract(read, Stream(fs[1..])[..n - |fs[0].wire|]) == Delivered(fs[1..], n - |fs[0].wire|)
    ensures Extract(read, Stream(fs)[..n]) == Delivered(fs, n)
  {
    var f, rest, r := fs[0], Stream(fs[1..])[..n - |fs[0].wire|], Delivered(fs[1..], n - |fs[0].wire|);
    assert Stream(fs)[..n] == f.wire + rest by {
      StreamPrefix(fs, n);
    }
    assert Extract(read, f.wire + rest) == Parsed([f.pac] + r.packets, r.rest, r.overrun) by {
      ExtractOne(read, f, rest);
    }
    DeliveredWhole(fs, n);
  }

  lemma {:induction false} DeliveredWhole(fs: seq<Frame>, n: nat)
    requires n <= |Stream(fs)|
    ensures !Delivered(fs, n).overrun
    decreases |fs|
  {
    if fs != [] && n >= |fs[0].wire| {
      DeliveredWhole(fs[1..], n - |fs[0].wire|);
    }
  }

  lemma ExtractNone(read: Reader, fs: seq<Frame>, n: nat)
    requires Progressive(read) && fs != [] && Framed(read, fs[0]) && n + 1 < |fs[0].wire|
    requires n <= |Stream(fs)|
    ensures Extract(read, Stream(fs)[..n]) == Delivered(fs, n)
  {
    StreamPrefix(fs, n);
    ExtractPart(read, fs[0], n);
  }

  /** What a run makes of the first n bytes of a stream that is not cut before a NUL: the
      complete packets, in order, and the rest untouched. */
  lemma {:induction false} ExtractStream(read: Reader, fs: seq<Frame>, n: nat)
    requires Progressive(read) && AllFramed(read, fs) && n <= |Stream(fs)| && !CutsOffNul(fs, n)
    ensures Extract(read, Stream(fs)[..n]) == Delivered(fs, n)
    decreases |fs|
  {
    if fs != [] {
      assert Framed(read, fs[0]);
      if n < |fs[0].wire| {
        ExtractNone(read, fs, n);
      } else {
        AllFramedTail(read, fs, 1);
        ExtractStream(read, fs[1..], n - |fs[0].wire|);
        ExtractFirst(read, fs, n);
      }
    }
  }

  lemma CutOffLater(read: Reader, fs: seq<Frame>, n: nat, n': nat, j: nat, j': nat)
    requires Progressive(read) && fs != [] && Framed(read, fs[0]) && n' + |fs[0].wire| == n <= |Stream(fs)| && j == j' + 1 <= |fs|
    requires Extract(read, Stream(fs[1..])[..n']) == Parsed(Packets(fs[1..][..j']), [], false)
    ensures Extract(read, Stream(fs)[..n]) == Parsed(Packets(fs[..j]), [], false)
  {
    var rest := Stream(fs[1..])[..n'];
    assert Stream(fs)[..n] == fs[0].wire + rest by {
      StreamPrefix(fs, n);
    }
    ExtractOne(read, fs[0], rest);
    assert fs[..j][1..] == fs[1..][..j'];
  }

  lemma CutOffHere(read: Reader, fs: seq<Frame>, n: nat)
    requires Progressive(read) && fs != [] && Framed(read, fs[0]) && n + 1 == |fs[0].wire|
    ensures n <= |Stream(fs)| && Extract(read, Stream(fs)[..n]) == Parsed(Packets(fs[..1]), [], false)
  {
    assert Stream(fs)[..n] == fs[0].wire[..n] by {
      StreamPrefix(fs, n);
    }
    ExtractPart(read, fs[0], n);
    assert fs[..1][1..] == [] && [fs[0].pac] + [] == [fs[0].pac];
  }

  /** A cut in front of a NUL: the packets up to and including the one cut off are delivered, and
      the NUL is still to come. */
  lemma {:induction false} ExtractCutOff(read: Reader, fs: seq<Frame>, n: nat, j: nat)
    requires Progressive(read) && AllFramed(read, fs) && n <= |Stream(fs)| && CutsOffNul(fs, n) && j == Complete(fs, n) + 1
    ensures j <= |fs| && Extract(read, Stream(fs)[..n]) == Parsed(Packets(fs[..j]), [], false)
    decreases |fs|
  {
    assert Framed(read, fs[0]);
    if n < |fs[0].wire| {
      CutOffHere(read, fs, n);
    } else {
      var n' := n - |fs[0].wire|;
      AllFramedTail(read, fs, 1);
      ExtractCutOff(read, fs[1..], n', j - 1);
      CutOffLater(read, fs, n, n', j, j - 1);
    }
  }

  // ---------------------------------------------------------------- the packets not yet delivered

  lemma {:induction false} StreamSplit(fs: seq<Frame>, n: nat)
    requires n <= |Stream(fs)|
    ensures var tail := fs[Complete(fs, n)..];
            Partial(fs, n) <= |Stream(tail)| && Stream(fs)[n..] == Stream(tail)[Partial(fs, n)..]
    decreases |fs|
  {
    if fs == [] || n < |fs[0].wire| {
      assert fs[0..] == fs;
    } else {
      var w := fs[0].wire;
      StreamSplit(fs[1..], n - |w|);
      assert fs[1..][Complete(fs[1..], n - |w|)..] == fs[Complete(fs, n)..];
      assert Stream(fs)[n..] == Stream(fs[1..])[n - |w|..];
    }
  }

  lemma {:induction false} DeliveredSplit(fs: seq<Frame>, n: nat)
    requires n <= |Stream(fs)|
    ensures var j, p := Complete(fs, n), Partial(fs, n);
            && p <= |Stream(fs[j..])|
            && Delivered(fs, n) == Parsed(Packets(fs[..j]), Stream(fs[j..])[..p], false)
    decreases |fs|
  {
    if fs == [] || n < |fs[0].wire| {
      assert fs[0..] == fs;
    } else {
      var n' := n - |fs[0].wire|;
      var j := Complete(fs[1..], n');
      DeliveredSplit(fs[1..], n');
      assert fs[..1 + j][1..] == fs[1..][..j] && fs[1 + j..] == fs[1..][j..];
    }
  }

  lemma {:induction false} PacketsSplit(fs: seq<Frame>, j: nat)
    requires j <= |fs|
    ensures Packets(fs) == Packets(fs[..j]) + Packets(fs[j..])
  {
    if j == 0 {
      assert fs[0..] == fs && [] + Packets(fs) == Packets(fs);
    } else {
      var a, b := Packets(fs[1..][..j - 1]), Packets(fs[1..][j - 1..]);
      PacketsSplit(fs[1..], j - 1);
      assert fs[..j][1..] == fs[1..][..j - 1] && fs[j..] == fs[1..][j - 1..];
      assert [fs[0].pac] + (a + b) == [fs[0].pac] + a + b;
    }
  }

  lemma {:induction false} TailPosition(fs: seq<Frame>, n: nat)
    ensures var tail := fs[Complete(fs, n)..];
            Complete(tail, Partial(fs, n)) == 0 && CutsOffNul(tail, Partial(fs, n)) == CutsOffNul(fs, n)
    decreases |fs|
  {
    if fs == [] || n < |fs[0].wire| {
      assert fs[0..] == fs;
    } else {
      TailPosition(fs[1..], n - |fs[0].wire|);
      assert fs[1..][Complete(fs[1..], n - |fs[0].wire|)..] == fs[Complete(fs, n)..];
    }
  }

  /** What a cut off packet leaves to come: its NUL, and the packets behind it. */
  lemma {:induction false} StreamAfterCut(fs: seq<Frame>, n: nat, j: nat)
    requires n <= |Stream(fs)| && CutsOffNul(fs, n) && j == Complete(fs, n) + 1
    requires forall i | 0 <= i < |fs| :: fs[i].wire != [] && fs[i].wire[|fs[i].wire| - 1] == NUL
    ensures j <= |fs| && Stream(fs)[n..] == [NUL] + Stream(fs[j..])
    decreases |fs|
  {
    var w, rest := fs[0].wire, fs[1..];
    if n < |w| {
      assert w[n..] == [NUL];
      assert Stream(fs)[n..] == w[n..] + Stream(rest);
    } else {
      var n' := n - |w|;
      StreamAfterCut(rest, n', j - 1);
      DropWhole(w, Stream(rest), n, n');
      assert rest[j - 1..] == fs[j..];
    }
  }

  lemma DropWhole(a: seq<byte>, b: seq<byte>, n: nat, n': nat)
    requires n == |a| + n' && n' <= |b|
    ensures (a + b)[n..] == b[n'..]
  {
  }

  /** The reader sees no packet where a NUL stands. */
  ghost predicate RejectsNul(read: Reader) {
    forall m :: m != [] && m[0] == NUL ==> read(m) == NoPacket
  }

  // ---------------------------------------------------------------- written packets

  /** A packet a peer writes. */
  datatype Message = Message(kind: Kind, header: seq<byte>, data: seq<byte>)

  predicate Good(m: Message) {
    CanWrite(m.kind, m.header, m.data) && Readable(m.header, m.data)
  }

  function FrameOf(m: Message): Frame
    requires Good(m)
  {
    var w := Write(m.kind, m.header, m.data);
    Frame(w.raw, w)
  }

  function Frames(ms: seq<Message>): (fs: seq<Frame>)
    requires forall i | 0 <= i < |ms| :: Good(ms[i])
    ensures |fs| == |ms| && forall i | 0 <= i < |ms| :: fs[i] == FrameOf(ms[i])
  {
    seq(|ms|, i requires 0 <= i < |ms| => FrameOf(ms[i]))
  }

  lemma ReadPart(m: Message, n: nat)
    requires Good(m) && n + 1 < |FrameOf(m).wire|
    ensures ReadOne(FrameOf(m).wire[..n] + [NUL]) == NoPacket
  {
    var s := Text(m.kind, m.header, m.data);
    assert FrameOf(m).wire[..n] == s[..n];
    PrefixRejected(m.kind, m.header, m.data, n);
    TextParts(m.kind, m.header, m.data);
    CStringOf(s[..n], [NUL]);
    CStringOf(s[..n], []);
    assert s[..n] + [] == s[..n];
    RejectedByText(s[..n], s[..n] + [NUL]);
  }

  lemma WrittenFramed(m: Message)
    requires Good(m)
    ensures Framed(ReadOne, FrameOf(m))
  {
    var f := FrameOf(m);
    forall rest
      ensures ReadOne(f.wire + rest) == Read(f.pac)
    {
      RoundTrip(m.kind, m.header, m.data, rest);
    }
    forall n: nat | n + 1 < |f.wire|
      ensures ReadOne(f.wire[..n] + [NUL]) == NoPacket
    {
      ReadPart(m, n);
    }
  }

  lemma ReadOneRejectsNul()
    ensures RejectsNul(ReadOne)
  {
    forall m: seq<byte> | m != [] && m[0] == NUL
      ensures ReadOne(m) == NoPacket
    {
      CStringOf([], m);
      assert [] + m == m;
    }
  }
}
