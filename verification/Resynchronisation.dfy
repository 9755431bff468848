/** Where srrp_next_packet_offset leads: it examines only the first occurrence of each leader, and
    the kinds in a fixed order. */
module Resynchronisation {
  import opened Bytes
  import opened Srrp

  /** A place where a packet may start. */
  predicate StartAt(s: seq<byte>, o: nat) {
    o + 1 < |s| && IsLeader(s[o]) && IsDigit(s[o + 1])
  }

  /** The first occurrence of the leader is followed by a digit. */
  predicate Qualifies(s: seq<byte>, leader: byte) {
    var p := IndexOf(s, leader);
    p + 1 < |s| && IsDigit(s[p + 1])
  }

  /** The first of the leaders that qualifies, or |leaders|. */
  function FirstQualified(s: seq<byte>, leaders: seq<byte>): (k: nat)
    ensures k <= |leaders| && (k < |leaders| ==> Qualifies(s, leaders[k]))
    ensures forall i | 0 <= i < k :: !Qualifies(s, leaders[i])
  {
    if leaders == [] || Qualifies(s, leaders[0]) then 0 else 1 + FirstQualified(s, leaders[1..])
  }

  /** In front of a first occurrence there is no other; at the very start the digit decides. */
  lemma StartsIffQualifies(before: byte, s: seq<byte>, leader: byte)
    requires IsLeader(leader) && !StartAt(s, 0)
    ensures Starts(before, s, leader) <==> Qualifies(s, leader)
  {
    var p := IndexOf(s, leader);
    if 0 < p < |s| {
      assert s[p - 1] == s[..p][p - 1];
    }
  }

  lemma {:induction false} FirstStartExact(before: byte, s: seq<byte>, leaders: seq<byte>)
    requires !StartAt(s, 0) && forall i | 0 <= i < |leaders| :: IsLeader(leaders[i])
    ensures var k := FirstQualified(s, leaders);
            FirstStart(before, s, leaders) == if k == |leaders| then -1 else IndexOf(s, leaders[k])
  {
    if leaders != [] {
      StartsIffQualifies(before, s, leaders[0]);
      FirstStartExact(before, s, leaders[1..]);
    }
  }

  /** Away from a packet start at the front, the offset is -1 if and only if for no leader the first
      occurrence is followed by a digit; otherwise it is the first occurrence of the first such
      leader, in the order in which they are searched for. The byte in front of the buffer is read
      but decides nothing. */
  lemma OffsetExact(before: byte, m: seq<byte>)
    ensures var s := CString(m);
            var k := FirstQualified(s, LEADERS);
            NextPacketOffset(before, m)
            == if StartAt(s, 0) then 0 else if k == |LEADERS| then -1 else IndexOf(s, LEADERS[k])
  {
    var s := CString(m);
    if !StartAt(s, 0) {
      FirstStartExact(before, s, LEADERS);
    }
  }

  lemma OffsetIgnoresBefore(before: byte, before': byte, m: seq<byte>)
    ensures NextPacketOffset(before, m) == NextPacketOffset(before', m)
  {
    OffsetExact(before, m);
    OffsetExact(before', m);
  }

  /** A non-negative offset points inside the text, at a leader followed by a digit. */
  lemma OffsetSound(before: byte, m: seq<byte>)
    ensures var o := NextPacketOffset(before, m); -1 <= o && (o >= 0 ==> StartAt(CString(m), o))
  {
    OffsetExact(before, m);
  }

  /** srrp_next_packet_offset never leaves the unread bytes: the assertion of parse_packet. */
  lemma OffsetInsideUnread(rx: seq<byte>)
    requires rx != []
    ensures NextPacketOffset(NUL, rx + [NUL]) < |rx|
  {
    OffsetSound(NUL, rx + [NUL]);
    assert (rx + [NUL])[|rx|] == NUL;
    assert |CString(rx + [NUL])| <= |rx|;
  }

  // ---------------------------------------------------------------- the nearest packet

  /** The first place where a packet may start. */
  ghost predicate Nearest(s: seq<byte>, o: nat) {
    StartAt(s, o) && forall j | 0 <= j < o :: !StartAt(s, j)
  }

  /** When a leader is searched for. */
  function Rank(leader: byte): (k: nat)
    requires IsLeader(leader)
    ensures k < |LEADERS| && LEADERS[k] == leader
  {
    if leader == REQUEST_LEADER then 0
    else if leader == RESPONSE_LEADER then 1
    else if leader == SUBSCRIBE_LEADER then 2
    else if leader == UNSUBSCRIBE_LEADER then 3
    else 4
  }

  lemma RankIsUnique(k: nat)
    requires k < |LEADERS|
    ensures IsLeader(LEADERS[k]) && Rank(LEADERS[k]) == k
  {
    assert LEADERS[0] == '>' && LEADERS[1] == '<' && LEADERS[2] == '#' && LEADERS[3] == '%' && LEADERS[4] == '@';
  }

  /** The offset is that of the nearest packet start if and only if that is at the front, or is the
      first of its kind and no kind searched for earlier qualifies. */
  lemma NearestIff(before: byte, m: seq<byte>, o: nat)
    requires Nearest(CString(m), o)
    ensures var s := CString(m);
            NextPacketOffset(before, m) == o <==>
            o == 0 || (IndexOf(s, s[o]) == o && forall i | 0 <= i < Rank(s[o]) :: !Qualifies(s, LEADERS[i]))
  {
    var s := CString(m);
    OffsetExact(before, m);
    if o > 0 {
      var k, r := FirstQualified(s, LEADERS), Rank(s[o]);
      if k < |LEADERS| {
        RankIsUnique(k);
      }
    }
  }

  /** Packet starts are overlooked altogether if and only if none stands at the front and no leader's
      first occurrence qualifies. */
  lemma OverlookedIff(before: byte, m: seq<byte>, o: nat)
    requires StartAt(CString(m), o)
    ensures NextPacketOffset(before, m) == -1 <==>
            !StartAt(CString(m), 0) && forall i | 0 <= i < |LEADERS| :: !Qualifies(CString(m), LEADERS[i])
  {
    OffsetExact(before, m);
  }

  /** The text of the two examples, with any bytes for x and y. */
  lemma TextOf(s: seq<byte>)
    requires IsText(s)
    ensures CString(s) == s
  {
    CStringOf(s, []);
    assert s + [] == s;
  }

  /** A request that starts at place 3 is overlooked because a request leader that starts nothing
      stands in front of it. */
  lemma LaterStartOverlooked()
    ensures var s: seq<byte> := ['x', '>', 'y', '>', '0', ','];
            StartAt(s, 3) && NextPacketOffset(NUL, s) == -1
  {
    var s: seq<byte> := ['x', '>', 'y', '>', '0', ','];
    TextOf(s);
    FirstAt(s, '>', 1);
    assert !Qualifies(s, '>');
    forall i | 0 <= i < |LEADERS|
      ensures !Qualifies(s, LEADERS[i])
    {
      RankIsUnique(i);
      if i > 0 {
        NotIn(s, LEADERS[i]);
      }
    }
    OverlookedIff(NUL, s, 3);
  }

  /** A response that starts at place 1 is passed over for a request further on. */
  lemma NearerResponsePassedOver()
    ensures var s: seq<byte> := ['x', '<', '0', '>', '1'];
            Nearest(s, 1) && NextPacketOffset(NUL, s) == 3
  {
    var s: seq<byte> := ['x', '<', '0', '>', '1'];
    TextOf(s);
    FirstAt(s, '>', 3);
    OffsetExact(NUL, s);
    assert LEADERS[0] == '>';
  }

  lemma FirstAt(s: seq<byte>, c: byte, i: nat)
    requires i < |s| && s[i] == c && c !in s[..i]
    ensures IndexOf(s, c) == i
  {
    var j := IndexOf(s, c);
    assert forall k | 0 <= k < j :: s[k] == s[..j][k];
    assert forall k | 0 <= k < i :: s[k] == s[..i][k];
  }

  lemma NotIn(s: seq<byte>, c: byte)
    requires c !in s
    ensures IndexOf(s, c) == |s|
  {
  }
}
