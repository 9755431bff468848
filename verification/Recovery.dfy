/** What parse_packet keeps when the front of a buffer cannot be parsed: exactly where it goes on, and
    when the packet behind the junk is saved. */
module Recovery {
  import opened Bytes
  import opened Srrp
  import opened SrrpRoundTrip
  import opened Resynchronisation
  import opened Framing
  import opened TimedFraming

  /** Of unparsable bytes nothing stays if they look like a packet from the start or if no leader's
      first occurrence is followed by a digit; otherwise what stays begins at the first occurrence of
      the first such leader, in the order in which they are searched for. */
  lemma ResyncExact(rx: seq<byte>)
    requires rx != []
    ensures var s := CString(rx + [NUL]);
            var k := FirstQualified(s, LEADERS);
            var p := if k < |LEADERS| then IndexOf(s, LEADERS[k]) else |rx|;
            && p <= |rx|
            && Resync(rx) == if StartAt(s, 0) || k == |LEADERS| then [] else rx[p..]
  {
    var m := rx + [NUL];
    var s := CString(m);
    OffsetExact(NUL, m);
    OffsetInsideUnread(rx);
    assert m[|rx|] == NUL;
    var k := FirstQualified(s, LEADERS);
    if k < |LEADERS| && !StartAt(s, 0) {
      RankIsUnique(k);
      assert IndexOf(s, LEADERS[k]) > 0;
    }
  }

  /** Bytes among which no packet starts. */
  predicate Junk(junk: seq<byte>) {
    junk != [] && forall i | 0 <= i < |junk| :: junk[i] != NUL && !IsLeader(junk[i])
  }

  lemma JunkIsRejected(junk: seq<byte>, m: seq<byte>)
    requires Junk(junk) && junk <= m
    ensures ReadOne(m) == NoPacket
  {
    var s := CString(m);
    assert s != [] ==> s[0] == m[0] == junk[0];
  }

  /** Junk in front moves the leaders and changes nothing else. */
  lemma JunkInFront(junk: seq<byte>, text: seq<byte>, leader: byte)
    requires Junk(junk) && IsLeader(leader)
    ensures IndexOf(junk + text, leader) == |junk| + IndexOf(text, leader)
    ensures Qualifies(junk + text, leader) <==> Qualifies(text, leader)
  {
    var s, p := junk + text, IndexOf(text, leader);
    var q := |junk| + p;
    assert leader !in s[..q] by {
      forall i | 0 <= i < q
        ensures s[..q][i] != leader
      {
        assert s[..q][i] == if i < |junk| then junk[i] else text[..p][i - |junk|];
      }
    }
    if p < |text| {
      FirstAt(s, leader, q);
    } else {
      assert s[..q] == s;
      NotIn(s, leader);
    }
  }

  /** The text starts with its leader and a digit. */
  lemma TextQualifies(m: Message)
    requires Good(m)
    ensures var text := Text(m.kind, m.header, m.data);
            Qualifies(text, Leader(m.kind)) && IndexOf(text, Leader(m.kind)) == 0 && IsLeader(Leader(m.kind))
  {
    WrittenLed(m);
    var text, wire := Text(m.kind, m.header, m.data), FrameOf(m).wire;
    assert wire == text + [NUL];
    TextParts(m.kind, m.header, m.data);
    assert text[0] == wire[0] && text[1] == wire[1];
    assert text[0] == Leader(m.kind) by {
      assert text[0] == text[..Overhead(m.kind) - 1][0];
    }
    FirstAt(text, Leader(m.kind), 0);
  }

  /** No kind that is searched for before this one seems to start in the text. */
  predicate NothingEarlier(text: seq<byte>, leader: byte)
    requires IsLeader(leader)
  {
    forall i | 0 <= i < Rank(leader) :: !Qualifies(text, LEADERS[i])
  }

  /** Which leader the search comes to. */
  lemma SearchBehindJunk(junk: seq<byte>, text: seq<byte>, leader: byte)
    requires Junk(junk) && IsLeader(leader) && Qualifies(text, leader)
    ensures var k := FirstQualified(junk + text, LEADERS);
            k <= Rank(leader) && (k == Rank(leader) <==> NothingEarlier(text, leader))
  {
    var s, k, r := junk + text, FirstQualified(junk + text, LEADERS), Rank(leader);
    JunkInFront(junk, text, leader);
    forall i | 0 <= i < |LEADERS|
      ensures Qualifies(s, LEADERS[i]) <==> Qualifies(text, LEADERS[i])
    {
      RankIsUnique(i);
      JunkInFront(junk, text, LEADERS[i]);
    }
  }

  /** What resynchronisation makes of junk in front of a written packet. */
  lemma ResyncBehindJunk(junk: seq<byte>, m: Message)
    requires Good(m) && Junk(junk)
    ensures var text := Text(m.kind, m.header, m.data);
            IsLeader(Leader(m.kind))
            && (Resync(junk + FrameOf(m).wire) == FrameOf(m).wire <==> NothingEarlier(text, Leader(m.kind)))
  {
    var text, wire, leader := Text(m.kind, m.header, m.data), FrameOf(m).wire, Leader(m.kind);
    var rx, s := junk + wire, junk + text;
    TextQualifies(m);
    TextParts(m.kind, m.header, m.data);
    assert CString(rx + [NUL]) == s by {
      assert IsText(s);
      assert rx + [NUL] == s + ([NUL] + [NUL]);
      CStringOf(s, [NUL] + [NUL]);
    }
    SearchBehindJunk(junk, text, leader);
    JunkInFront(junk, text, leader);
    ResyncExact(rx);
    var k := FirstQualified(s, LEADERS);
    RankIsUnique(k);
    assert !StartAt(s, 0) by {
      assert s[0] == junk[0];
    }
    var p := IndexOf(s, LEADERS[k]);
    assert s[p] == LEADERS[k];
    assert rx[|junk|..] == wire;
    if k != Rank(leader) {
      assert s[|junk|] == text[0] == leader;
      assert p != |junk| && |rx[p..]| != |wire|;
    }
  }

  lemma ExtractJunk(junk: seq<byte>, rest: seq<byte>)
    requires Progressive(ReadOne) && Junk(junk)
    ensures Extract(ReadOne, junk + rest) == Parsed([], junk + rest, false)
  {
    JunkIsRejected(junk, junk + rest + [NUL]);
  }

  /** Junk in front of a written packet: a late poll takes nothing, and leaves exactly the packet's
      bytes if and only if no kind searched for before the packet's seems to start in its text. */
  lemma LateKeepsPacketIff(m: Message, junk: seq<byte>, t: Taken, d: Delivery)
    requires Progressive(ReadOne) && Good(m) && Junk(junk)
    requires t.box.rx == junk + FrameOf(m).wire && Late(t.box.tsRecv, d)
    ensures TakeTurn(ReadOne, t, d).got == t.got
    ensures IsLeader(Leader(m.kind))
    ensures TakeTurn(ReadOne, t, d).box.rx == FrameOf(m).wire <==> NothingEarlier(Text(m.kind, m.header, m.data), Leader(m.kind))
  {
    ExtractJunk(junk, FrameOf(m).wire);
    ResyncBehindJunk(junk, m);
    TurnIs(ReadOne, t, d);
    assert t.box.rx + d.chunk == t.box.rx && t.got + [] == t.got;
  }

  /** The poll after that takes the packet. */
  lemma PacketAfterJunk(m: Message, junk: seq<byte>, t: Taken, late: Delivery, next: Delivery)
    requires Progressive(ReadOne) && Good(m) && Junk(junk)
    requires t.box.rx == junk + FrameOf(m).wire && Late(t.box.tsRecv, late) && next.chunk == []
    requires IsLeader(Leader(m.kind)) && NothingEarlier(Text(m.kind, m.header, m.data), Leader(m.kind))
    ensures var u := TakeTurns(ReadOne, t, [late, next]); u.got == t.got + [FrameOf(m).pac] && u.box.rx == []
  {
    LateKeepsPacketIff(m, junk, t, late);
    var t' := TakeTurn(ReadOne, t, late);
    WrittenFramed(m);
    ExtractWhole(ReadOne, FrameOf(m));
    assert t'.box.rx + [] == t'.box.rx;
    TurnIs(ReadOne, t', next);
    TurnsOfTwo(ReadOne, t, late, next);
  }

  lemma ExtractWhole(read: Reader, f: Frame)
    requires Progressive(read) && Framed(read, f)
    ensures Extract(read, f.wire) == Parsed([f.pac], [], false)
  {
    assert read(f.wire + [NUL]) == ReadResult.Read(f.pac);
    assert Advance(f.wire, f.pac.len) == [];
    ExtractUnfolds(read, f.wire, f.pac, Parsed([], [], false));
  }

  lemma TurnsOfTwo(read: Reader, t: Taken, a: Delivery, b: Delivery)
    requires Progressive(read)
    ensures TakeTurns(read, t, [a, b]) == TakeTurn(read, TakeTurn(read, t, a), b)
  {
    var u := TakeTurn(read, t, a);
    assert [a, b][1..] == [b] && [b][1..] == [];
    assert TakeTurns(read, u, [b]) == TakeTurns(read, TakeTurn(read, u, b), []);
  }

  /** A request is the kind searched for first: behind junk it is always saved. */
  lemma RequestAfterJunk(m: Message, junk: seq<byte>, t: Taken, late: Delivery, next: Delivery)
    requires Progressive(ReadOne) && Good(m) && Junk(junk) && m.kind.Request?
    requires t.box.rx == junk + FrameOf(m).wire && Late(t.box.tsRecv, late) && next.chunk == []
    ensures var u := TakeTurns(ReadOne, t, [late, next]); u.got == t.got + [FrameOf(m).pac] && u.box.rx == []
  {
    PacketAfterJunk(m, junk, t, late, next);
  }
}
