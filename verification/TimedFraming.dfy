/** What comes out of one descriptor over timed polls: exactly when a stream of packets, cut into
    chunks, is delivered whole. */
module TimedFraming {
  import opened Sequences
  import opened Bytes
  import opened Srrp
  import opened Resynchronisation
  import opened Framing
  import opened Inboxes

  /** One poll at the descriptor: what has arrived, possibly nothing, and the clock. */
  datatype Delivery = Delivery(chunk: seq<byte>, now: nat)

  /** The packets taken so far and what waits. */
  datatype Taken = Taken(got: seq<Packet>, box: Inbox)

  /** A descriptor's part in a poll. */
  function TakeTurn(read: Reader, t: Taken, d: Delivery): Taken
    requires Progressive(read)
  {
    var full := Received(t.box, d.chunk, d.now);
    Taken(t.got + ParsedBox(read, full, d.now).packets, LeftBox(read, full, d.now))
  }

  function TakeTurns(read: Reader, t: Taken, ds: seq<Delivery>): Taken
    requires Progressive(read)
    decreases |ds|
  {
    if ds == [] then t else TakeTurns(read, TakeTurn(read, t, ds[0]), ds[1..])
  }

  function Chunks(ds: seq<Delivery>): seq<byte> {
    if ds == [] then [] else ds[0].chunk + Chunks(ds[1..])
  }

  // ---------------------------------------------------------------- the condition

  /** Nothing has arrived for a second, the parse timeout. */
  predicate Late(ts: nat, d: Delivery) {
    d.chunk == [] && d.now >= ts + 1
  }

  function LastArrival(ts: nat, d: Delivery): nat {
    if d.chunk == [] then ts else d.now
  }

  /** Whether the packets fs come out whole, told from where the chunks end and when they arrive.
      The unread bytes are the first p of the stream of fs or, when a chunk has ended just before a
      packet's final NUL, of that stray NUL and the stream. A stray NUL blocks everything until a
      late poll drops it, which must find nothing else to drop; a late poll must not find a part of
      a packet. */
  predicate Survives(fs: seq<Frame>, stray: bool, p: nat, ts: nat, ds: seq<Delivery>)
    decreases |ds|
  {
    if ds == [] then fs == [] && !stray
    else
      var q, ts', rest := p + |ds[0].chunk|, LastArrival(ts, ds[0]), ds[1..];
      if stray then
        if Late(ts, ds[0]) && q > 0 then q == 1 && Survives(fs, false, 0, ts', rest)
        else Survives(fs, true, q, ts', rest)
      else if CutsOffNul(fs, q) then Survives(fs[Complete(fs, q) + 1..], true, 0, ts', rest)
      else (Late(ts, ds[0]) ==> Partial(fs, q) == 0) && Survives(fs[Complete(fs, q)..], false, Partial(fs, q), ts', rest)
  }

  // ---------------------------------------------------------------- one poll

  /** What the theorem needs of a frame's packet and first bytes. */
  ghost predicate Led(f: Frame) {
    |f.wire| >= 2 && f.pac.raw == f.wire && IsLeader(f.wire[0]) && IsDigit(f.wire[1]) && f.wire[|f.wire| - 1] == NUL
  }

  ghost predicate AllLed(fs: seq<Frame>) {
    forall i | 0 <= i < |fs| :: Led(fs[i])
  }

  lemma LeadingNulDropsAll(rx: seq<byte>)
    requires rx != [] && rx[0] == NUL
    ensures Resync(rx) == []
  {
    var m := rx + [NUL];
    CStringOf([], m);
    assert [] + m == m;
    OffsetExact(NUL, m);
  }

  lemma LeadDropsAll(rx: seq<byte>)
    requires rx != [] && IsLeader(rx[0]) && (|rx| > 1 ==> IsDigit(rx[1]))
    ensures Resync(rx) == []
  {
    var m := rx + [NUL];
    var s := CString(m);
    assert m[0] == rx[0];
    if |rx| > 1 {
      assert m[1] == rx[1];
      assert StartAt(s, 0);
      OffsetExact(NUL, m);
    } else {
      assert |s| <= 1 by {
        assert m[1] == NUL;
      }
      OffsetSound(NUL, m);
    }
  }

  /** Parsing the first q bytes of a stream of frames. */
  lemma ParseFrames(read: Reader, fs: seq<Frame>, q: nat, expired: bool)
    requires Progressive(read) && AllFramed(read, fs) && AllLed(fs) && q <= |Stream(fs)| && !CutsOffNul(fs, q)
    ensures var j, p := Complete(fs, q), Partial(fs, q);
            && p <= |Stream(fs[j..])|
            && ParseWith(read, Stream(fs)[..q], expired)
               == Parsed(Packets(fs[..j]), if expired then [] else Stream(fs[j..])[..p], false)
  {
    var j, p := Complete(fs, q), Partial(fs, q);
    ExtractStream(read, fs, q);
    DeliveredSplit(fs, q);
    var rest := Stream(fs[j..])[..p];
    assert rest != [] ==> Resync(rest) == [] by {
      if p > 0 {
        PartIsDropped(fs, q);
      }
    }
    ParseOfExtract(read, Stream(fs)[..q], expired, Packets(fs[..j]), rest);
  }

  lemma ParseOfExtract(read: Reader, rx: seq<byte>, expired: bool, packets: seq<Packet>, rest: seq<byte>)
    requires Progressive(read) && Extract(read, rx) == Parsed(packets, rest, false) && (rest != [] ==> Resync(rest) == [])
    ensures ParseWith(read, rx, expired) == Parsed(packets, if expired then [] else rest, false)
  {
  }

  lemma PartIsDropped(fs: seq<Frame>, q: nat)
    requires AllLed(fs) && q <= |Stream(fs)| && Partial(fs, q) > 0
    ensures var j, p := Complete(fs, q), Partial(fs, q);
            p <= |Stream(fs[j..])| && Resync(Stream(fs[j..])[..p]) == []
  {
    var j, p := Complete(fs, q), Partial(fs, q);
    PartOfFrame(fs, q);
    assert Led(fs[j]);
    LeadDropsAll(fs[j].wire[..p]);
  }

  lemma {:induction false} PartOfFrame(fs: seq<Frame>, q: nat)
    requires AllLed(fs) && q <= |Stream(fs)| && Partial(fs, q) > 0
    ensures var j, p := Complete(fs, q), Partial(fs, q);
            && j < |fs| && p < |fs[j].wire| && p <= |Stream(fs[j..])| && Stream(fs[j..])[..p] == fs[j].wire[..p]
    decreases |fs|
  {
    assert Led(fs[0]);
    if q < |fs[0].wire| {
      assert fs[0..] == fs;
      assert Stream(fs)[..q] == fs[0].wire[..q];
    } else {
      PartOfFrame(fs[1..], q - |fs[0].wire|);
      assert fs[1..][Complete(fs[1..], q - |fs[0].wire|)..] == fs[Complete(fs, q)..];
    }
  }

  lemma ParseCutOff(read: Reader, fs: seq<Frame>, q: nat, j: nat, expired: bool)
    requires Progressive(read) && AllFramed(read, fs) && q <= |Stream(fs)| && CutsOffNul(fs, q) && j == Complete(fs, q) + 1
    ensures ParseWith(read, Stream(fs)[..q], expired) == Parsed(Packets(fs[..j]), [], false)
  {
    ExtractCutOff(read, fs, q, j);
    ParseOfExtract(read, Stream(fs)[..q], expired, Packets(fs[..j]), []);
  }

  lemma ParseStray(read: Reader, rx: seq<byte>, expired: bool)
    requires Progressive(read) && RejectsNul(read) && rx != [] && rx[0] == NUL
    ensures ParseWith(read, rx, expired) == Parsed([], if expired then [] else rx, false)
  {
    assert (rx + [NUL])[0] == NUL;
    LeadingNulDropsAll(rx);
  }

  // ---------------------------------------------------------------- what is lost is lost

  function NonNul(s: seq<byte>): nat {
    if s == [] then 0 else (if s[0] == NUL then 0 else 1) + NonNul(s[1..])
  }

  lemma {:induction false} NonNulConcat(a: seq<byte>, b: seq<byte>)
    ensures NonNul(a + b) == NonNul(a) + NonNul(b)
  {
    if a == [] {
      assert a + b == b;
    } else {
      assert (a + b)[1..] == a[1..] + b;
      NonNulConcat(a[1..], b);
    }
  }

  function Weight(ps: seq<Packet>): nat {
    if ps == [] then 0 else NonNul(ps[0].raw) + Weight(ps[1..])
  }

  lemma WeightMore(p: Packet, ps: seq<Packet>)
    ensures Weight([p] + ps) == NonNul(p.raw) + Weight(ps)
  {
    assert ([p] + ps)[1..] == ps;
  }

  lemma {:induction false} WeightConcat(a: seq<Packet>, b: seq<Packet>)
    ensures Weight(a + b) == Weight(a) + Weight(b)
  {
    if a == [] {
      assert a + b == b;
    } else {
      assert (a + b)[1..] == a[1..] + b;
      WeightConcat(a[1..], b);
    }
  }

  /** The reader keeps the bytes it takes. */
  ghost predicate KeepsBytes(read: Reader) {
    forall m :: read(m).Read? ==> read(m).pac.raw == m[..if read(m).pac.len < |m| then read(m).pac.len else |m|]
  }

  lemma TakenBytes(rx: seq<byte>, n: nat)
    ensures var m := rx + [NUL];
            NonNul(m[..if n < |m| then n else |m|]) + NonNul(Advance(rx, n)) == NonNul(rx)
  {
    var m := rx + [NUL];
    if n <= |rx| {
      assert m[..n] == rx[..n] && rx == rx[..n] + rx[n..];
      NonNulConcat(rx[..n], rx[n..]);
    } else {
      assert m[..|m|] == m;
      NonNulConcat(rx, [NUL]);
    }
  }

  /** The first packet of a buffer, and the rest. */
  lemma ExtractUnfolds(read: Reader, rx: seq<byte>, pac: Packet, r: Parsed)
    requires Progressive(read) && rx != [] && read(rx + [NUL]) == ReadResult.Read(pac) && r == Extract(read, Advance(rx, pac.len))
    ensures Extract(read, rx) == Parsed([pac] + r.packets, r.rest, r.overrun)
  {
  }

  lemma {:induction false} ExtractWeighs(read: Reader, rx: seq<byte>, e: Parsed)
    requires Progressive(read) && KeepsBytes(read) && e == Extract(read, rx)
    ensures Weight(e.packets) + NonNul(e.rest) == NonNul(rx)
    decreases |rx|
  {
    var m := rx + [NUL];
    if rx != [] && read(m).Read? {
      var pac := read(m).pac;
      var r := Extract(read, Advance(rx, pac.len));
      assert pac.raw == m[..if pac.len < |m| then pac.len else |m|];
      TakenBytes(rx, pac.len);
      ExtractWeighs(read, Advance(rx, pac.len), r);
      ExtractUnfolds(read, rx, pac, r);
      WeightMore(pac, r.packets);
    }
  }

  lemma ParseWeighs(read: Reader, rx: seq<byte>, expired: bool)
    requires Progressive(read) && KeepsBytes(read)
    ensures var r := ParseWith(read, rx, expired); Weight(r.packets) + NonNul(r.rest) <= NonNul(rx)
  {
    var e, r := Extract(read, rx), ParseWith(read, rx, expired);
    ExtractWeighs(read, rx, e);
    var k := |e.rest| - |r.rest|;
    if expired && !e.overrun && e.rest != [] {
      assert e.rest == e.rest[..k] + r.rest;
      NonNulConcat(e.rest[..k], r.rest);
    }
  }

  /** Over any polls, packets and unread bytes never hold more than was there and arrived. */
  lemma {:induction false} TurnsWeigh(read: Reader, t: Taken, ds: seq<Delivery>)
    requires Progressive(read) && KeepsBytes(read)
    ensures var u := TakeTurns(read, t, ds);
            Weight(u.got) + NonNul(u.box.rx) <= Weight(t.got) + NonNul(t.box.rx) + NonNul(Chunks(ds))
    decreases |ds|
  {
    if ds != [] {
      var d, t' := ds[0], TakeTurn(read, t, ds[0]);
      var full := Received(t.box, d.chunk, d.now);
      assert full.rx == t.box.rx + d.chunk;
      NonNulConcat(t.box.rx, d.chunk);
      NonNulConcat(d.chunk, Chunks(ds[1..]));
      ParseWeighs(read, full.rx, d.now >= full.tsRecv + PARSE_TIMEOUT);
      WeightConcat(t.got, ParsedBox(read, full, d.now).packets);
      TurnsWeigh(read, t', ds[1..]);
    }
  }

  lemma {:induction false} FramesWeigh(fs: seq<Frame>)
    requires AllLed(fs)
    ensures Weight(Packets(fs)) == NonNul(Stream(fs))
  {
    if fs != [] {
      assert Led(fs[0]);
      FramesWeigh(fs[1..]);
      NonNulConcat(fs[0].wire, Stream(fs[1..]));
      assert Packets(fs)[1..] == Packets(fs[1..]);
    }
  }

  /** All of the frames' packets have come out and nothing is left over. */
  ghost predicate AllOut(read: Reader, t: Taken, ds: seq<Delivery>, fs: seq<Frame>)
    requires Progressive(read)
  {
    var u := TakeTurns(read, t, ds);
    u.got == t.got + Packets(fs) && u.box.rx == []
  }

  lemma LostForEver(read: Reader, t: Taken, ds: seq<Delivery>, fs: seq<Frame>)
    requires Progressive(read) && KeepsBytes(read) && AllLed(fs)
    requires NonNul(t.box.rx) + NonNul(Chunks(ds)) < NonNul(Stream(fs))
    ensures !AllOut(read, t, ds, fs)
  {
    TurnsWeigh(read, t, ds);
    FramesWeigh(fs);
    WeightConcat(t.got, Packets(fs));
  }

  // ---------------------------------------------------------------- the theorem

  /** What is still to be taken, unread or to arrive. */
  function Due(fs: seq<Frame>, stray: bool): seq<byte> {
    (if stray then [NUL] else []) + Stream(fs)
  }

  /** The unread bytes are the first p of what is due, and those to come are the rest. */
  ghost predicate At(rx: seq<byte>, fs: seq<Frame>, stray: bool, p: nat, coming: seq<byte>) {
    && p <= |Due(fs, stray)| && rx == Due(fs, stray)[..p] && coming == Due(fs, stray)[p..]
    && (!stray ==> Complete(fs, p) == 0 && !CutsOffNul(fs, p))
  }

  ghost predicate Reads(read: Reader, fs: seq<Frame>) {
    Progressive(read) && KeepsBytes(read) && RejectsNul(read) && AllFramed(read, fs) && AllLed(fs)
  }

  lemma ReadsTail(read: Reader, fs: seq<Frame>, j: nat)
    requires Reads(read, fs) && j <= |fs|
    ensures Reads(read, fs[j..])
  {
    AllFramedTail(read, fs, j);
  }

  /** The next chunk is the next piece of what is due. */
  lemma NextPiece(due: seq<byte>, p: nat, c: seq<byte>, coming: seq<byte>)
    requires p <= |due| && c + coming == due[p..]
    ensures var q := p + |c|; q <= |due| && due[..p] + c == due[..q] && coming == due[q..]
  {
    assert c == due[p..][..|c|];
    assert coming == due[p..][|c|..];
  }

  /** After taking the packets got of the frames, the others have to come out of the rest. */
  lemma AllOutNext(read: Reader, t: Taken, ds: seq<Delivery>, fs: seq<Frame>, j: nat)
    requires Progressive(read) && ds != [] && j <= |fs|
    requires TakeTurn(read, t, ds[0]).got == t.got + Packets(fs[..j])
    ensures AllOut(read, t, ds, fs) <==> AllOut(read, TakeTurn(read, t, ds[0]), ds[1..], fs[j..])
  {
    assert t.got + Packets(fs[..j]) + Packets(fs[j..]) == t.got + Packets(fs) by {
      PacketsSplit(fs, j);
      Regroup(t.got, Packets(fs[..j]), Packets(fs[j..]));
    }
  }

  /** A poll parses the bytes that are there, its timeout having passed if it is late. */
  lemma TurnIs(read: Reader, t: Taken, d: Delivery)
    requires Progressive(read)
    ensures var r := ParseWith(read, t.box.rx + d.chunk, Late(t.box.tsRecv, d));
            && TakeTurn(read, t, d).got == t.got + r.packets && TakeTurn(read, t, d).box.rx == r.rest
            && TakeTurn(read, t, d).box.tsRecv == LastArrival(t.box.tsRecv, d)
  {
    var full := Received(t.box, d.chunk, d.now);
    assert full.rx == t.box.rx + d.chunk;
    assert (d.now >= full.tsRecv + PARSE_TIMEOUT) == Late(t.box.tsRecv, d);
  }

  /** The same, on bytes and a parse that are known. */
  lemma TurnParses(read: Reader, t: Taken, d: Delivery, rx: seq<byte>, r: Parsed)
    requires Progressive(read) && rx == t.box.rx + d.chunk && r == ParseWith(read, rx, Late(t.box.tsRecv, d))
    ensures TakeTurn(read, t, d).got == t.got + r.packets && TakeTurn(read, t, d).box.rx == r.rest
  {
    TurnIs(read, t, d);
  }

  /** A poll in step with the frames whose chunk ends just before a packet's NUL: the packets up to
      and including that one come out, and the stray NUL is due next. */
  lemma TurnCutOff(read: Reader, t: Taken, fs: seq<Frame>, p: nat, d: Delivery, coming: seq<byte>, q: nat, j: nat)
    requires Reads(read, fs) && At(t.box.rx, fs, false, p, d.chunk + coming)
    requires q == p + |d.chunk| && CutsOffNul(fs, q) && j == Complete(fs, q) + 1
    ensures TakeTurn(read, t, d).got == t.got + Packets(fs[..j])
    ensures At(TakeTurn(read, t, d).box.rx, fs[j..], true, 0, coming)
  {
    InStep(t, fs, p, d.chunk, coming, q);
    TurnIs(read, t, d);
    ParseCutOff(read, fs, q, j, Late(t.box.tsRecv, d));
    assert forall i | 0 <= i < |fs| :: Led(fs[i]);
    StreamAfterCut(fs, q, j);
  }

  /** Any other poll in step: the packets complete by then come out. A late one drops a part of a
      packet that it finds; otherwise the polls stay in step. */
  lemma TurnInStep(read: Reader, t: Taken, fs: seq<Frame>, p: nat, d: Delivery, coming: seq<byte>, q: nat, j: nat, p': nat)
    requires Reads(read, fs) && At(t.box.rx, fs, false, p, d.chunk + coming)
    requires q == p + |d.chunk| && !CutsOffNul(fs, q) && j == Complete(fs, q) && p' == Partial(fs, q)
    ensures var t' := TakeTurn(read, t, d);
            && t'.got == t.got + Packets(fs[..j])
            && p' <= |Stream(fs[j..])| && coming == Stream(fs[j..])[p'..]
            && t'.box.rx == if Late(t.box.tsRecv, d) then [] else Stream(fs[j..])[..p']
  {
    InStep(t, fs, p, d.chunk, coming, q);
    TurnIs(read, t, d);
    ParseFrames(read, fs, q, Late(t.box.tsRecv, d));
    StreamSplit(fs, q);
  }

  lemma InStep(t: Taken, fs: seq<Frame>, p: nat, c: seq<byte>, coming: seq<byte>, q: nat)
    requires At(t.box.rx, fs, false, p, c + coming) && q == p + |c|
    ensures q <= |Stream(fs)| && t.box.rx + c == Stream(fs)[..q] && coming == Stream(fs)[q..]
  {
    NextPiece(Due(fs, false), p, c, coming);
    assert Due(fs, false) == Stream(fs);
  }

  lemma AtFrames(fs: seq<Frame>, p: nat, coming: seq<byte>)
    requires p <= |Stream(fs)| && coming == Stream(fs)[p..] && Complete(fs, p) == 0 && !CutsOffNul(fs, p)
    ensures At(Stream(fs)[..p], fs, false, p, coming)
  {
    assert Due(fs, false) == Stream(fs);
  }

  /** A part of a frame weighs something. */
  lemma PartWeighs(fs: seq<Frame>, q: nat)
    requires AllLed(fs) && q <= |Stream(fs)| && Partial(fs, q) > 0
    ensures var j, p := Complete(fs, q), Partial(fs, q);
            p <= |Stream(fs[j..])| && NonNul(Stream(fs[j..])[p..]) < NonNul(Stream(fs[j..]))
  {
    var j, p := Complete(fs, q), Partial(fs, q);
    PartOfFrame(fs, q);
    assert Led(fs[j]);
    var s := Stream(fs[j..]);
    assert s == s[..p] + s[p..] && s[..p][0] == fs[j].wire[0];
    NonNulConcat(s[..p], s[p..]);
  }

  /** A stray NUL in front: nothing comes out, and a late poll drops everything unread. */
  lemma TurnStray(read: Reader, t: Taken, fs: seq<Frame>, p: nat, d: Delivery, coming: seq<byte>, q: nat)
    requires Reads(read, fs) && At(t.box.rx, fs, true, p, d.chunk + coming) && q == p + |d.chunk|
    ensures var t' := TakeTurn(read, t, d);
            && t'.got == t.got && q <= |Due(fs, true)| && coming == Due(fs, true)[q..]
            && t'.box.rx == if Late(t.box.tsRecv, d) then [] else Due(fs, true)[..q]
  {
    var late := Late(t.box.tsRecv, d);
    var rx := Due(fs, true)[..q];
    assert q <= |Due(fs, true)| && rx == t.box.rx + d.chunk && coming == Due(fs, true)[q..] by {
      NextPiece(Due(fs, true), p, d.chunk, coming);
    }
    StrayParsed(read, fs, q, late);
    TurnParses(read, t, d, rx, Parsed([], if late then [] else rx, false));
    assert t.got + [] == t.got;
  }

  lemma StrayParsed(read: Reader, fs: seq<Frame>, q: nat, late: bool)
    requires Progressive(read) && RejectsNul(read) && q <= |Due(fs, true)|
    ensures ParseWith(read, Due(fs, true)[..q], late) == Parsed([], if late then [] else Due(fs, true)[..q], false)
  {
    var rx := Due(fs, true)[..q];
    if rx != [] {
      assert rx[0] == Due(fs, true)[0] == NUL;
      ParseStray(read, rx, late);
    }
  }

  lemma StrayWeighs(fs: seq<Frame>, q: nat)
    requires AllLed(fs) && 1 < q <= |Due(fs, true)|
    ensures NonNul(Due(fs, true)[q..]) < NonNul(Stream(fs))
  {
    var s, n := Stream(fs), q - 1;
    assert Due(fs, true)[q..] == s[n..];
    assert s == s[..n] + s[n..];
    assert fs != [] && Led(fs[0]) && s[..n][0] == fs[0].wire[0];
    NonNulConcat(s[..n], s[n..]);
  }

  /** The polls deliver everything if and only if the stream survives. */
  lemma {:induction false} AllOutIff(read: Reader, t: Taken, fs: seq<Frame>, stray: bool, p: nat, ds: seq<Delivery>)
    requires Reads(read, fs) && At(t.box.rx, fs, stray, p, Chunks(ds))
    ensures AllOut(read, t, ds, fs) <==> Survives(fs, stray, p, t.box.tsRecv, ds)
    decreases |ds|, 1
  {
    if ds == [] {
      AllOutAtEnd(read, t, fs, stray, p);
    } else if stray {
      AllOutStray(read, t, fs, p, ds, p + |ds[0].chunk|);
    } else {
      AllOutInStep(read, t, fs, p, ds, p + |ds[0].chunk|);
    }
  }

  lemma AllOutAtEnd(read: Reader, t: Taken, fs: seq<Frame>, stray: bool, p: nat)
    requires Reads(read, fs) && At(t.box.rx, fs, stray, p, [])
    ensures AllOut(read, t, [], fs) <==> fs == [] && !stray
  {
    assert t.box.rx == Due(fs, stray);
    assert fs != [] ==> Led(fs[0]);
    assert fs == [] ==> t.got + Packets(fs) == t.got;
  }

  lemma {:induction false} AllOutStray(read: Reader, t: Taken, fs: seq<Frame>, p: nat, ds: seq<Delivery>, q: nat)
    requires Reads(read, fs) && ds != [] && At(t.box.rx, fs, true, p, Chunks(ds)) && q == p + |ds[0].chunk|
    ensures AllOut(read, t, ds, fs) <==> Survives(fs, true, p, t.box.tsRecv, ds)
    decreases |ds|, 0
  {
    var t', ts' := TakeTurn(read, t, ds[0]), LastArrival(t.box.tsRecv, ds[0]);
    TurnStray(read, t, fs, p, ds[0], Chunks(ds[1..]), q);
    assert t'.box.tsRecv == ts' by {
      TurnIs(read, t, ds[0]);
    }
    assert AllOut(read, t, ds, fs) <==> AllOut(read, t', ds[1..], fs) by {
      assert fs[..0] == [] && fs[0..] == fs && t.got + [] == t.got;
      AllOutNext(read, t, ds, fs, 0);
    }
    StraySurvives(fs, p, t.box.tsRecv, ds, q, ts');
    if Late(t.box.tsRecv, ds[0]) && q > 1 {
      StrayWeighs(fs, q);
      LostForEver(read, t', ds[1..], fs);
    } else if Late(t.box.tsRecv, ds[0]) && q == 1 {
      NulGone(fs, Chunks(ds[1..]));
      AllOutIff(read, t', fs, false, 0, ds[1..]);
    } else {
      AllOutIff(read, t', fs, true, q, ds[1..]);
    }
  }

  lemma StraySurvives(fs: seq<Frame>, p: nat, ts: nat, ds: seq<Delivery>, q: nat, ts': nat)
    requires ds != [] && q == p + |ds[0].chunk| && ts' == LastArrival(ts, ds[0])
    ensures Survives(fs, true, p, ts, ds) ==
            if Late(ts, ds[0]) && q > 0 then q == 1 && Survives(fs, false, 0, ts', ds[1..])
            else Survives(fs, true, q, ts', ds[1..])
  {
  }

  lemma NulGone(fs: seq<Frame>, coming: seq<byte>)
    requires coming == Due(fs, true)[1..] && AllLed(fs)
    ensures At([], fs, false, 0, coming)
  {
    assert Due(fs, true)[1..] == Stream(fs);
    assert fs != [] ==> Led(fs[0]);
    AtFrames(fs, 0, coming);
  }

  lemma {:induction false} AllOutInStep(read: Reader, t: Taken, fs: seq<Frame>, p: nat, ds: seq<Delivery>, q: nat)
    requires Reads(read, fs) && ds != [] && At(t.box.rx, fs, false, p, Chunks(ds)) && q == p + |ds[0].chunk|
    ensures AllOut(read, t, ds, fs) <==> Survives(fs, false, p, t.box.tsRecv, ds)
    decreases |ds|, 0
  {
    var t', ts' := TakeTurn(read, t, ds[0]), LastArrival(t.box.tsRecv, ds[0]);
    assert t'.box.tsRecv == ts' by {
      TurnIs(read, t, ds[0]);
    }
    if CutsOffNul(fs, q) {
      var j := Complete(fs, q) + 1;
      TurnCutOff(read, t, fs, p, ds[0], Chunks(ds[1..]), q, j);
      AllOutNext(read, t, ds, fs, j);
      ReadsTail(read, fs, j);
      AllOutIff(read, t', fs[j..], true, 0, ds[1..]);
      CutSurvives(fs, p, t.box.tsRecv, ds, q, j, ts');
    } else {
      var j, p' := Complete(fs, q), Partial(fs, q);
      TurnInStep(read, t, fs, p, ds[0], Chunks(ds[1..]), q, j, p');
      AllOutNext(read, t, ds, fs, j);
      ReadsTail(read, fs, j);
      InStepSurvives(fs, p, t.box.tsRecv, ds, q, j, p', ts');
      if Late(t.box.tsRecv, ds[0]) && p' > 0 {
        InStep(t, fs, p, ds[0].chunk, Chunks(ds[1..]), q);
        PartWeighs(fs, q);
        LostForEver(read, t', ds[1..], fs[j..]);
      } else {
        StaysInStep(fs, q, j, p', Chunks(ds[1..]));
        AllOutIff(read, t', fs[j..], false, p', ds[1..]);
      }
    }
  }

  lemma StaysInStep(fs: seq<Frame>, q: nat, j: nat, p: nat, coming: seq<byte>)
    requires !CutsOffNul(fs, q) && j == Complete(fs, q) && p == Partial(fs, q)
    requires p <= |Stream(fs[j..])| && coming == Stream(fs[j..])[p..]
    ensures At(Stream(fs[j..])[..p], fs[j..], false, p, coming)
  {
    TailPosition(fs, q);
    AtFrames(fs[j..], p, coming);
  }

  lemma CutSurvives(fs: seq<Frame>, p: nat, ts: nat, ds: seq<Delivery>, q: nat, j: nat, ts': nat)
    requires ds != [] && q == p + |ds[0].chunk| && ts' == LastArrival(ts, ds[0]) && CutsOffNul(fs, q) && j == Complete(fs, q) + 1
    ensures Survives(fs, false, p, ts, ds) == Survives(fs[j..], true, 0, ts', ds[1..])
  {
  }

  lemma InStepSurvives(fs: seq<Frame>, p: nat, ts: nat, ds: seq<Delivery>, q: nat, j: nat, p': nat, ts': nat)
    requires ds != [] && q == p + |ds[0].chunk| && ts' == LastArrival(ts, ds[0])
    requires !CutsOffNul(fs, q) && j == Complete(fs, q) && p' == Partial(fs, q)
    ensures Survives(fs, false, p, ts, ds) == ((Late(ts, ds[0]) ==> p' == 0) && Survives(fs[j..], false, p', ts', ds[1..]))
  {
  }

  // ---------------------------------------------------------------- written packets

  lemma ReadOneKeepsBytes()
    ensures KeepsBytes(ReadOne)
  {
  }

  lemma WrittenLed(m: Message)
    requires Good(m)
    ensures Led(FrameOf(m))
  {
    var k, s := m.kind, Text(m.kind, m.header, m.data);
    var p := Prefix(k, WrittenLen(k, m.header, m.data));
    assert s[0] == p[0] == Leader(k) && s[1] == p[1] == '0';
  }

  lemma WrittenReads(ms: seq<Message>)
    requires forall i | 0 <= i < |ms| :: Good(ms[i])
    ensures Reads(ReadOne, Frames(ms))
  {
    var fs := Frames(ms);
    ReadOneProgressive();
    ReadOneKeepsBytes();
    ReadOneRejectsNul();
    forall i | 0 <= i < |fs|
      ensures Framed(ReadOne, fs[i]) && Led(fs[i])
    {
      WrittenFramed(ms[i]);
      WrittenLed(ms[i]);
    }
  }

  lemma AtStart(fs: seq<Frame>, coming: seq<byte>)
    requires AllLed(fs) && coming == Stream(fs)
    ensures At([], fs, false, 0, coming)
  {
    assert fs != [] ==> Led(fs[0]);
    assert Stream(fs)[0..] == Stream(fs);
    AtFrames(fs, 0, coming);
  }

  /** Stream framing over timed polls: written packets sent as one stream to a descriptor whose
      buffer is empty, in any chunks and at any times, come out as exactly those packets, in order,
      and leave nothing unread, if and only if the stream survives its cuts and pauses. */
  lemma StreamComesOutIff(ms: seq<Message>, t: Taken, ds: seq<Delivery>)
    requires forall i | 0 <= i < |ms| :: Good(ms[i])
    requires t.box.rx == [] && Chunks(ds) == Stream(Frames(ms))
    ensures Progressive(ReadOne)
    ensures AllOut(ReadOne, t, ds, Frames(ms)) <==> Survives(Frames(ms), false, 0, t.box.tsRecv, ds)
  {
    WrittenReads(ms);
    AtStart(Frames(ms), Chunks(ds));
    AllOutIff(ReadOne, t, Frames(ms), false, 0, ds);
  }

  // ---------------------------------------------------------------- no pauses

  /** No poll finds that nothing has arrived for as long as the timeout. */
  predicate NeverLate(ts: nat, ds: seq<Delivery>)
    decreases |ds|
  {
    ds != [] ==> !Late(ts, ds[0]) && NeverLate(LastArrival(ts, ds[0]), ds[1..])
  }

  /** No chunk, the first starting after n bytes of the stream, ends just before a packet's NUL. */
  predicate CleanCuts(fs: seq<Frame>, n: nat, ds: seq<Delivery>)
    decreases |ds|
  {
    ds != [] ==> !CutsOffNul(fs, n + |ds[0].chunk|) && CleanCuts(fs, n + |ds[0].chunk|, ds[1..])
  }

  lemma {:induction false} CutsOfTail(fs: seq<Frame>, n: nat, n': nat, ds: seq<Delivery>)
    requires fs != [] && n == |fs[0].wire| + n'
    ensures CleanCuts(fs, n, ds) == CleanCuts(fs[1..], n', ds)
    decreases |ds|
  {
    if ds != [] {
      CutsOfTail(fs, n + |ds[0].chunk|, n' + |ds[0].chunk|, ds[1..]);
    }
  }

  lemma {:induction false} CutsOfRest(fs: seq<Frame>, n: nat, j: nat, p: nat, ds: seq<Delivery>)
    requires j == Complete(fs, n) && p == Partial(fs, n)
    ensures CleanCuts(fs, n, ds) == CleanCuts(fs[j..], p, ds)
    decreases |fs|
  {
    if fs == [] || n < |fs[0].wire| {
      assert fs[0..] == fs;
    } else {
      var n' := n - |fs[0].wire|;
      CutsOfTail(fs, n, n', ds);
      CutsOfRest(fs[1..], n', j - 1, p, ds);
      assert fs[1..][j - 1..] == fs[j..];
    }
  }

  lemma {:induction false} StrayNeverSurvives(fs: seq<Frame>, p: nat, ts: nat, ds: seq<Delivery>)
    requires NeverLate(ts, ds)
    ensures !Survives(fs, true, p, ts, ds)
    decreases |ds|
  {
    if ds != [] {
      StrayNeverSurvives(fs, p + |ds[0].chunk|, LastArrival(ts, ds[0]), ds[1..]);
    }
  }

  lemma FirstWithin(fs: seq<Frame>)
    ensures fs != [] ==> |fs[0].wire| <= |Stream(fs)|
  {
  }

  /** Without pauses only the cuts decide. */
  lemma {:induction false} SurvivesIffClean(fs: seq<Frame>, p: nat, ts: nat, ds: seq<Delivery>)
    requires NeverLate(ts, ds) && AllLed(fs) && Complete(fs, p) == 0 && p + |Chunks(ds)| == |Stream(fs)|
    ensures Survives(fs, false, p, ts, ds) <==> CleanCuts(fs, p, ds)
    decreases |ds|
  {
    if ds == [] {
      FirstWithin(fs);
    } else {
      var q, ts' := p + |ds[0].chunk|, LastArrival(ts, ds[0]);
      if CutsOffNul(fs, q) {
        StrayNeverSurvives(fs[Complete(fs, q) + 1..], 0, ts', ds[1..]);
      } else {
        var j, p' := Complete(fs, q), Partial(fs, q);
        InStepSurvives(fs, p, ts, ds, q, j, p', ts');
        assert CleanCuts(fs, p, ds) == CleanCuts(fs[j..], p', ds[1..]) by {
          CutsOfRest(fs, q, j, p', ds[1..]);
        }
        ReachesEnd(fs, p, ds, q, j, p');
        SurvivesIffClean(fs[j..], p', ts', ds[1..]);
      }
    }
  }

  lemma ReachesEnd(fs: seq<Frame>, p: nat, ds: seq<Delivery>, q: nat, j: nat, p': nat)
    requires ds != [] && p + |Chunks(ds)| == |Stream(fs)| && q == p + |ds[0].chunk|
    requires j == Complete(fs, q) && p' == Partial(fs, q)
    ensures Complete(fs[j..], p') == 0 && p' + |Chunks(ds[1..])| == |Stream(fs[j..])|
  {
    RestOfStream(fs, q, j, p');
  }

  lemma RestOfStream(fs: seq<Frame>, q: nat, j: nat, p: nat)
    requires q <= |Stream(fs)| && j == Complete(fs, q) && p == Partial(fs, q)
    ensures Complete(fs[j..], p) == 0 && |Stream(fs[j..])| - p == |Stream(fs)| - q
  {
    TailPosition(fs, q);
    StreamSplit(fs, q);
    assert |Stream(fs)[q..]| == |Stream(fs[j..])[p..]|;
  }

  /** When no poll is late, the stream comes out whole if and only if no chunk ends just before a
      packet's final NUL. */
  lemma FramingExact(ms: seq<Message>, t: Taken, ds: seq<Delivery>)
    requires forall i | 0 <= i < |ms| :: Good(ms[i])
    requires t.box.rx == [] && Chunks(ds) == Stream(Frames(ms)) && NeverLate(t.box.tsRecv, ds)
    ensures Progressive(ReadOne)
    ensures AllOut(ReadOne, t, ds, Frames(ms)) <==> CleanCuts(Frames(ms), 0, ds)
  {
    StreamComesOutIff(ms, t, ds);
    WrittenReads(ms);
    AtStart(Frames(ms), Chunks(ds));
    SurvivesIffClean(Frames(ms), 0, t.box.tsRecv, ds);
  }

  /** After a bad cut: behind a stray NUL nothing comes out and nothing is lost until a late poll. */
  lemma {:induction false} StrayNulStalls(read: Reader, t: Taken, ds: seq<Delivery>, all: seq<byte>)
    requires Progressive(read) && RejectsNul(read) && NeverLate(t.box.tsRecv, ds)
    requires all == t.box.rx + Chunks(ds) && (all != [] ==> all[0] == NUL)
    ensures TakeTurns(read, t, ds).got == t.got && TakeTurns(read, t, ds).box.rx == all
    decreases |ds|
  {
    if ds == [] {
      assert t.box.rx + [] == t.box.rx;
    } else {
      var t', rx := TakeTurn(read, t, ds[0]), t.box.rx + ds[0].chunk;
      assert all == rx + Chunks(ds[1..]) by {
        Regroup(t.box.rx, ds[0].chunk, Chunks(ds[1..]));
      }
      StallOnce(read, t, ds[0], rx);
      StrayNulStalls(read, t', ds[1..], all);
    }
  }

  lemma StallOnce(read: Reader, t: Taken, d: Delivery, rx: seq<byte>)
    requires Progressive(read) && RejectsNul(read) && !Late(t.box.tsRecv, d)
    requires rx == t.box.rx + d.chunk && (rx != [] ==> rx[0] == NUL)
    ensures var t' := TakeTurn(read, t, d); t'.got == t.got && t'.box.rx == rx && t'.box.tsRecv == LastArrival(t.box.tsRecv, d)
  {
    TurnIs(read, t, d);
    if rx != [] {
      ParseStray(read, rx, false);
    }
    assert t.got + [] == t.got;
  }

  /** That late poll drops everything that has come behind the NUL. */
  lemma StrayNulDropsAll(read: Reader, t: Taken, d: Delivery)
    requires Progressive(read) && RejectsNul(read) && t.box.rx != [] && t.box.rx[0] == NUL && Late(t.box.tsRecv, d)
    ensures TakeTurn(read, t, d).got == t.got && TakeTurn(read, t, d).box.rx == []
  {
    TurnIs(read, t, d);
    assert t.box.rx + d.chunk == t.box.rx && t.got + [] == t.got;
    ParseStray(read, t.box.rx, true);
  }

  // ---------------------------------------------------------------- one packet of a stream

  /** Whether packet n of the stream comes out during ds, told from where the chunks end and when
      they arrive: every poll up to then stays in step, or gets back in step by dropping a stray NUL
      alone. A cut just before its own NUL does not hurt it, and neither does what comes after. */
  predicate Comes(fs: seq<Frame>, stray: bool, p: nat, ts: nat, ds: seq<Delivery>, n: nat)
    decreases |ds|
  {
    ds != [] &&
    var q, ts', rest := p + |ds[0].chunk|, LastArrival(ts, ds[0]), ds[1..];
    if stray then
      if Late(ts, ds[0]) && q > 0 then q == 1 && Comes(fs, false, 0, ts', rest, n)
      else Comes(fs, true, q, ts', rest, n)
    else
      var j, p' := Complete(fs, q), Partial(fs, q);
      if CutsOffNul(fs, q) then n <= j || Comes(fs[j + 1..], true, 0, ts', rest, n - (j + 1))
      else n < j || ((Late(ts, ds[0]) ==> p' == 0) && Comes(fs[j..], false, p', ts', rest, n - j))
  }

  /** What is unread and what is delivered, followed by later bytes, are the frames fs, and frame n
      comes out. */
  ghost predicate OnItsWay(read: Reader, box: Inbox, fs: seq<Frame>, n: nat, ds: seq<Delivery>, stray: bool, p: nat, later: seq<byte>) {
    && n < |fs| && Reads(read, fs) && At(box.rx, fs, stray, p, Chunks(ds) + later) && Comes(fs, stray, p, box.tsRecv, ds, n)
  }

  ghost predicate Underway(read: Reader, box: Inbox, fs: seq<Frame>, n: nat, ds: seq<Delivery>) {
    exists stray, p: nat, later :: OnItsWay(read, box, fs, n, ds, stray, p, later)
  }

  lemma {:induction false} PacketIn(fs: seq<Frame>, j: nat, n: nat)
    requires n < j <= |fs|
    ensures fs[n].pac in Packets(fs[..j])
    decreases j
  {
    if n > 0 {
      PacketIn(fs[1..], j - 1, n - 1);
      assert fs[..j][1..] == fs[1..][..j - 1];
    }
  }

  /** The packet comes out in the next poll, or is still on its way after it. */
  lemma NextTurn(read: Reader, box: Inbox, fs: seq<Frame>, n: nat, ds: seq<Delivery>) returns (fs': seq<Frame>, n': nat)
    requires Progressive(read) && Underway(read, box, fs, n, ds)
    ensures ds != []
    ensures var full := Received(box, ds[0].chunk, ds[0].now);
            || fs[n].pac in ParsedBox(read, full, ds[0].now).packets
            || (n' < |fs'| && fs'[n'] == fs[n] && Underway(read, LeftBox(read, full, ds[0].now), fs', n', ds[1..]))
  {
    var stray, p: nat, later :| OnItsWay(read, box, fs, n, ds, stray, p, later);
    var d, coming := ds[0], Chunks(ds[1..]) + later;
    var t := Taken([], box);
    assert At(box.rx, fs, stray, p, d.chunk + coming) by {
      Regroup(d.chunk, Chunks(ds[1..]), later);
    }
    TurnIs(read, t, d);
    var q := p + |d.chunk|;
    var j := if CutsOffNul(fs, q) then Complete(fs, q) + 1 else Complete(fs, q);
    fs', n' := fs, n;
    if stray {
      StrayTurn(read, t, fs, n, ds, p, later, q);
    } else if n < j {
      Out(read, t, fs, n, p, d, coming, q, j);
    } else {
      fs', n' := fs[j..], n - j;
      FrameAfter(fs, j, n, n');
      if CutsOffNul(fs, q) {
        CutTurn(read, t, fs, n, ds, p, later, q, j, n');
      } else {
        StepTurn(read, t, fs, n, ds, p, later, q, j, n');
      }
    }
  }

  lemma StrayTurn(read: Reader, t: Taken, fs: seq<Frame>, n: nat, ds: seq<Delivery>, p: nat, later: seq<byte>, q: nat)
    requires ds != [] && OnItsWay(read, t.box, fs, n, ds, true, p, later) && q == p + |ds[0].chunk|
    requires At(t.box.rx, fs, true, p, ds[0].chunk + (Chunks(ds[1..]) + later))
    ensures Underway(read, TakeTurn(read, t, ds[0]).box, fs, n, ds[1..])
  {
    var d, coming := ds[0], Chunks(ds[1..]) + later;
    TurnIs(read, t, d);
    TurnStray(read, t, fs, p, d, coming, q);
    var box' := TakeTurn(read, t, d).box;
    if Late(t.box.tsRecv, d) && q > 0 {
      NulGone(fs, coming);
      assert OnItsWay(read, box', fs, n, ds[1..], false, 0, later);
    } else {
      assert OnItsWay(read, box', fs, n, ds[1..], true, q, later);
    }
  }

  lemma ComesStray(fs: seq<Frame>, p: nat, ts: nat, ds: seq<Delivery>, n: nat, q: nat, ts': nat)
    requires ds != [] && q == p + |ds[0].chunk| && ts' == LastArrival(ts, ds[0])
    ensures Comes(fs, true, p, ts, ds, n) ==
            if Late(ts, ds[0]) && q > 0 then q == 1 && Comes(fs, false, 0, ts', ds[1..], n)
            else Comes(fs, true, q, ts', ds[1..], n)
  {
  }

  lemma ComesCut(fs: seq<Frame>, p: nat, ts: nat, ds: seq<Delivery>, n: nat, q: nat, j: nat, ts': nat, n': int)
    requires ds != [] && q == p + |ds[0].chunk| && ts' == LastArrival(ts, ds[0])
    requires CutsOffNul(fs, q) && j == Complete(fs, q) + 1 && n' == n - j
    ensures Comes(fs, false, p, ts, ds, n) == (n' < 0 || Comes(fs[j..], true, 0, ts', ds[1..], n'))
  {
  }

  lemma ComesStep(fs: seq<Frame>, p: nat, ts: nat, ds: seq<Delivery>, n: nat, q: nat, j: nat, p': nat, ts': nat, n': int)
    requires ds != [] && q == p + |ds[0].chunk| && ts' == LastArrival(ts, ds[0])
    requires !CutsOffNul(fs, q) && j == Complete(fs, q) && p' == Partial(fs, q) && n' == n - j
    ensures Comes(fs, false, p, ts, ds, n) ==
            (n' < 0 || ((Late(ts, ds[0]) ==> p' == 0) && Comes(fs[j..], false, p', ts', ds[1..], n')))
  {
  }

  lemma FrameAfter(fs: seq<Frame>, j: nat, n: nat, n': nat)
    requires j <= |fs| && n == j + n' < |fs|
    ensures n' < |fs[j..]| && fs[j..][n'] == fs[n]
  {
  }

  lemma CutTurn(read: Reader, t: Taken, fs: seq<Frame>, n: nat, ds: seq<Delivery>, p: nat, later: seq<byte>, q: nat, j: nat, n': nat)
    requires ds != [] && OnItsWay(read, t.box, fs, n, ds, false, p, later) && q == p + |ds[0].chunk|
    requires At(t.box.rx, fs, false, p, ds[0].chunk + (Chunks(ds[1..]) + later))
    requires CutsOffNul(fs, q) && j == Complete(fs, q) + 1 && n == j + n'
    ensures Underway(read, TakeTurn(read, t, ds[0]).box, fs[j..], n', ds[1..])
  {
    TurnIs(read, t, ds[0]);
    TurnCutOff(read, t, fs, p, ds[0], Chunks(ds[1..]) + later, q, j);
    ReadsTail(read, fs, j);
    ComesCut(fs, p, t.box.tsRecv, ds, n, q, j, LastArrival(t.box.tsRecv, ds[0]), n');
    assert OnItsWay(read, TakeTurn(read, t, ds[0]).box, fs[j..], n', ds[1..], true, 0, later);
  }

  lemma StepTurn(read: Reader, t: Taken, fs: seq<Frame>, n: nat, ds: seq<Delivery>, p: nat, later: seq<byte>, q: nat, j: nat, n': nat)
    requires ds != [] && OnItsWay(read, t.box, fs, n, ds, false, p, later) && q == p + |ds[0].chunk|
    requires At(t.box.rx, fs, false, p, ds[0].chunk + (Chunks(ds[1..]) + later))
    requires !CutsOffNul(fs, q) && j == Complete(fs, q) && n == j + n'
    ensures Underway(read, TakeTurn(read, t, ds[0]).box, fs[j..], n', ds[1..])
  {
    var p' := Partial(fs, q);
    TurnIs(read, t, ds[0]);
    TurnInStep(read, t, fs, p, ds[0], Chunks(ds[1..]) + later, q, j, p');
    ReadsTail(read, fs, j);
    ComesStep(fs, p, t.box.tsRecv, ds, n, q, j, p', LastArrival(t.box.tsRecv, ds[0]), n');
    StaysInStep(fs, q, j, p', Chunks(ds[1..]) + later);
    assert Stream(fs[j..])[..0] == [];
    assert OnItsWay(read, TakeTurn(read, t, ds[0]).box, fs[j..], n', ds[1..], false, p', later);
  }

  lemma Out(read: Reader, t: Taken, fs: seq<Frame>, n: nat, p: nat, d: Delivery, coming: seq<byte>, q: nat, j: nat)
    requires Reads(read, fs) && At(t.box.rx, fs, false, p, d.chunk + coming) && q == p + |d.chunk|
    requires j == (if CutsOffNul(fs, q) then Complete(fs, q) + 1 else Complete(fs, q)) && n < j && t.got == []
    ensures n < |fs| && fs[n].pac in TakeTurn(read, t, d).got
  {
    if CutsOffNul(fs, q) {
      TurnCutOff(read, t, fs, p, d, coming, q, j);
    } else {
      TurnInStep(read, t, fs, p, d, coming, q, j, Partial(fs, q));
    }
    PacketIn(fs, j, n);
  }

  /** Unless some poll is late, the packet whose bytes are next in the stream comes out as soon as
      its text has arrived, wherever the chunks end. */
  lemma {:induction false} FirstComesIff(fs: seq<Frame>, p: nat, ts: nat, ds: seq<Delivery>)
    requires fs != [] && NeverLate(ts, ds) && p + 1 < |fs[0].wire|
    ensures Comes(fs, false, p, ts, ds, 0) <==> p + |Chunks(ds)| + 1 >= |fs[0].wire|
    decreases |ds|
  {
    if ds != [] {
      var q := p + |ds[0].chunk|;
      if q + 1 < |fs[0].wire| {
        assert fs[0..] == fs;
        FirstComesIff(fs, q, LastArrival(ts, ds[0]), ds[1..]);
      }
    }
  }

  // ---------------------------------------------------------------- exactly when a packet comes out

  /** All packets of the frames have come out, in order, behind those taken before. */
  ghost predicate AllCame(read: Reader, t: Taken, ds: seq<Delivery>, fs: seq<Frame>)
    requires Progressive(read)
  {
    t.got + Packets(fs) <= TakeTurns(read, t, ds).got
  }

  lemma {:induction false} GotGrows(read: Reader, t: Taken, ds: seq<Delivery>)
    requires Progressive(read)
    ensures t.got <= TakeTurns(read, t, ds).got
    decreases |ds|
  {
    if ds != [] {
      GotGrows(read, TakeTurn(read, t, ds[0]), ds[1..]);
    }
  }

  lemma AllCameNow(read: Reader, t: Taken, ds: seq<Delivery>, fs: seq<Frame>, j: nat)
    requires Progressive(read) && ds != [] && j == |fs|
    requires TakeTurn(read, t, ds[0]).got == t.got + Packets(fs[..j])
    ensures AllCame(read, t, ds, fs)
  {
    assert fs[..j] == fs;
    GotGrows(read, TakeTurn(read, t, ds[0]), ds[1..]);
  }

  lemma AllCameNext(read: Reader, t: Taken, ds: seq<Delivery>, fs: seq<Frame>, j: nat)
    requires Progressive(read) && ds != [] && j <= |fs|
    requires TakeTurn(read, t, ds[0]).got == t.got + Packets(fs[..j])
    ensures AllCame(read, t, ds, fs) <==> AllCame(read, TakeTurn(read, t, ds[0]), ds[1..], fs[j..])
  {
    assert t.got + Packets(fs[..j]) + Packets(fs[j..]) == t.got + Packets(fs) by {
      PacketsSplit(fs, j);
      Regroup(t.got, Packets(fs[..j]), Packets(fs[j..]));
    }
  }

  /** What is lost does not come: less text is left than the frames hold. */
  lemma NeverCame(read: Reader, t: Taken, ds: seq<Delivery>, fs: seq<Frame>, later: seq<byte>)
    requires Progressive(read) && KeepsBytes(read) && AllLed(fs)
    requires t.box.rx == [] && NonNul(Chunks(ds) + later) < NonNul(Stream(fs))
    ensures !AllCame(read, t, ds, fs)
  {
    TurnsWeigh(read, t, ds);
    FramesWeigh(fs);
    NonNulConcat(Chunks(ds), later);
    WeightConcat(t.got, Packets(fs));
    if AllCame(read, t, ds, fs) {
      PrefixWeighs(t.got + Packets(fs), TakeTurns(read, t, ds).got);
    }
  }

  lemma PrefixWeighs(a: seq<Packet>, b: seq<Packet>)
    requires a <= b
    ensures Weight(a) <= Weight(b)
  {
    assert b == a + b[|a|..];
    WeightConcat(a, b[|a|..]);
  }

  /** The packets of a stream, of which more may come later, come out up to the last one if and only
      if the last one comes out in step. */
  lemma {:induction false} LastComesIff(read: Reader, t: Taken, fs: seq<Frame>, stray: bool, p: nat, ds: seq<Delivery>, later: seq<byte>, n: nat)
    requires Reads(read, fs) && |fs| == n + 1 && At(t.box.rx, fs, stray, p, Chunks(ds) + later)
    ensures AllCame(read, t, ds, fs) <==> Comes(fs, stray, p, t.box.tsRecv, ds, n)
    decreases |ds|, 1
  {
    if ds == [] {
      assert |Packets(fs)| > 0;
    } else {
      var q := p + |ds[0].chunk|;
      assert At(t.box.rx, fs, stray, p, ds[0].chunk + (Chunks(ds[1..]) + later)) by {
        Regroup(ds[0].chunk, Chunks(ds[1..]), later);
      }
      if stray {
        LastComesStray(read, t, fs, p, ds, later, n, q);
      } else if CutsOffNul(fs, q) {
        var j := Complete(fs, q) + 1;
        LastComesCut(read, t, fs, p, ds, later, n, q, j, fs[j..], n - j);
      } else {
        var j := Complete(fs, q);
        LastComesStep(read, t, fs, p, ds, later, n, q, j, Partial(fs, q), fs[j..], n - j);
      }
    }
  }

  lemma {:induction false} LastComesStray(read: Reader, t: Taken, fs: seq<Frame>, p: nat, ds: seq<Delivery>, later: seq<byte>, n: nat, q: nat)
    requires Reads(read, fs) && |fs| == n + 1 && ds != [] && q == p + |ds[0].chunk|
    requires At(t.box.rx, fs, true, p, ds[0].chunk + (Chunks(ds[1..]) + later))
    ensures AllCame(read, t, ds, fs) <==> Comes(fs, true, p, t.box.tsRecv, ds, n)
    decreases |ds|, 0
  {
    var t', coming := TakeTurn(read, t, ds[0]), Chunks(ds[1..]) + later;
    TurnStray(read, t, fs, p, ds[0], coming, q);
    assert t'.box.tsRecv == LastArrival(t.box.tsRecv, ds[0]) by {
      TurnIs(read, t, ds[0]);
    }
    assert AllCame(read, t, ds, fs) <==> AllCame(read, t', ds[1..], fs) by {
      assert fs[..0] == [] && fs[0..] == fs && t.got + [] == t.got;
      AllCameNext(read, t, ds, fs, 0);
    }
    ComesStray(fs, p, t.box.tsRecv, ds, n, q, t'.box.tsRecv);
    if Late(t.box.tsRecv, ds[0]) && q > 1 {
      StrayWeighs(fs, q);
      NeverCame(read, t', ds[1..], fs, later);
    } else if Late(t.box.tsRecv, ds[0]) && q == 1 {
      NulGone(fs, coming);
      LastComesIff(read, t', fs, false, 0, ds[1..], later, n);
    } else {
      LastComesIff(read, t', fs, true, q, ds[1..], later, n);
    }
  }

  lemma {:induction false} LastComesCut(read: Reader, t: Taken, fs: seq<Frame>, p: nat, ds: seq<Delivery>, later: seq<byte>, n: nat, q: nat, j: nat, fs': seq<Frame>, n': int)
    requires Reads(read, fs) && |fs| == n + 1 && ds != [] && q == p + |ds[0].chunk| && CutsOffNul(fs, q) && j == Complete(fs, q) + 1
    requires j <= |fs| && fs' == fs[j..] && n' == n - j
    requires At(t.box.rx, fs, false, p, ds[0].chunk + (Chunks(ds[1..]) + later))
    ensures AllCame(read, t, ds, fs) <==> Comes(fs, false, p, t.box.tsRecv, ds, n)
    decreases |ds|, 0
  {
    var t', coming := TakeTurn(read, t, ds[0]), Chunks(ds[1..]) + later;
    TurnCutOff(read, t, fs, p, ds[0], coming, q, j);
    assert t'.box.tsRecv == LastArrival(t.box.tsRecv, ds[0]) by {
      TurnIs(read, t, ds[0]);
    }
    ComesCut(fs, p, t.box.tsRecv, ds, n, q, j, t'.box.tsRecv, n');
    if n' < 0 {
      AllCameNow(read, t, ds, fs, j);
    } else {
      AllCameNext(read, t, ds, fs, j);
      ReadsTail(read, fs, j);
      LastComesIff(read, t', fs', true, 0, ds[1..], later, n');
    }
  }

  lemma {:induction false} LastComesStep(read: Reader, t: Taken, fs: seq<Frame>, p: nat, ds: seq<Delivery>, later: seq<byte>, n: nat, q: nat, j: nat, p': nat, fs': seq<Frame>, n': int)
    requires Reads(read, fs) && |fs| == n + 1 && ds != [] && q == p + |ds[0].chunk| && !CutsOffNul(fs, q)
    requires j == Complete(fs, q) && p' == Partial(fs, q)
    requires j <= |fs| && fs' == fs[j..] && n' == n - j
    requires At(t.box.rx, fs, false, p, ds[0].chunk + (Chunks(ds[1..]) + later))
    ensures AllCame(read, t, ds, fs) <==> Comes(fs, false, p, t.box.tsRecv, ds, n)
    decreases |ds|, 0
  {
    var t', coming := TakeTurn(read, t, ds[0]), Chunks(ds[1..]) + later;
    TurnInStep(read, t, fs, p, ds[0], coming, q, j, p');
    assert t'.box.tsRecv == LastArrival(t.box.tsRecv, ds[0]) by {
      TurnIs(read, t, ds[0]);
    }
    ComesStep(fs, p, t.box.tsRecv, ds, n, q, j, p', t'.box.tsRecv, n');
    if n' < 0 {
      AllCameNow(read, t, ds, fs, j);
    } else {
      AllCameNext(read, t, ds, fs, j);
      ReadsTail(read, fs, j);
      if Late(t.box.tsRecv, ds[0]) && p' > 0 {
        InStep(t, fs, p, ds[0].chunk, coming, q);
        PartWeighs(fs, q);
        NeverCame(read, t', ds[1..], fs', later);
      } else {
        StaysInStep(fs, q, j, p', coming);
        LastComesIff(read, t', fs', false, p', ds[1..], later, n');
      }
    }
  }
}
