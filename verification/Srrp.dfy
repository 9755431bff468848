/** SRRP packets: the readers and writers of the source. Text is what stands before the NUL that
    ends every packet; a packet's length counts that NUL. */
module Srrp {
  import opened Bytes
  import opened Hex

  const REQUEST_LEADER: byte := '>'
  const RESPONSE_LEADER: byte := '<'
  const SUBSCRIBE_LEADER: byte := '#'
  const UNSUBSCRIBE_LEADER: byte := '%'
  const PUBLISH_LEADER: byte := '@'

  /** SRRP_HEADER_LEN */
  const HEADER_LEN := 128
  /** SRRP_LENGTH_MAX */
  const LENGTH_MAX := 4096

  datatype Packet = Packet(
    leader: byte, seat: byte, seqno: nat, len: nat, srcid: nat, reqcrc16: nat,
    header: seq<byte>, data: seq<byte>, raw: seq<byte>)

  /** Overrun stands for a copy outside the packet's 128-byte header array, or of the four gigabytes
      that a negative length wraps around to: from there on the source's behaviour is undefined. */
  datatype ReadResult = NoPacket | Overrun | Read(pac: Packet)

  predicate IsSubPubLeader(c: byte) {
    c == SUBSCRIBE_LEADER || c == UNSUBSCRIBE_LEADER || c == PUBLISH_LEADER
  }

  predicate IsLeader(c: byte) {
    c == REQUEST_LEADER || c == RESPONSE_LEADER || IsSubPubLeader(c)
  }

  // ---------------------------------------------------------------- readers

  /** A number as sscanf's "%x" reads it, with its sign; next is the place after it. */
  datatype Number = NoNumber | Number(negative: bool, value: nat, next: nat)

  /** The first place from i on that is not white space. */
  function PastSpace(s: seq<byte>, i: nat): (j: nat)
    requires i <= |s|
    ensures i <= j <= |s| && (j < |s| ==> !IsSpace(s[j])) && forall k | i <= k < j :: IsSpace(s[k])
    decreases |s| - i
  {
    if i < |s| && IsSpace(s[i]) then PastSpace(s, i + 1) else i
  }

  predicate IsSign(c: byte) {
    c == '+' || c == '-'
  }

  /** A base prefix 0x stands at k. */
  predicate BaseAt(s: seq<byte>, k: nat) {
    k + 1 < |s| && s[k] == '0' && (s[k + 1] == 'x' || s[k + 1] == 'X')
  }

  /** "%x" with a field width: white space, then at most width bytes of sign, 0x and digits. */
  function ScanNumber(s: seq<byte>, i: nat, width: nat): (r: Number)
    requires i <= |s|
    ensures r.Number? ==> i < r.next <= |s| && (width <= 4 ==> r.value < 65536)
  {
    var j := PastSpace(s, i);
    var signed := width > 0 && j < |s| && IsSign(s[j]);
    var k, w := if signed then j + 1 else j, if signed then width - 1 else width;
    var based := w >= 2 && BaseAt(s, k);
    var from, left := if based then k + 2 else k, if based then w - 2 else w;
    var e := RunEnd(s, from, left);
    if e == from then NoNumber
    else
      assert width <= 4 ==> RunValue(s[from..e]) < 65536 by {
        if width <= 4 {
          RunValueBound(s[from..e]);
        }
      }
      Number(signed && s[j] == '-', RunValue(s[from..e]), e)
  }

  /** The fields "%c%x,%c,%4x" every packet starts with; next is the place after them. A negative
      length stands for the 32-bit value it wraps around to. */
  datatype Head = NoHead | Head(leader: byte, seqno: nat, seat: byte, len: int, next: nat)

  /** A further ",%4x" or ",%x" field. */
  datatype Field = NoField | Field(value: nat, next: nat)

  /** What a number of any size leaves in a 16-bit field: sscanf stops at the largest 64-bit
      value, wraps a negative one around, and the assignment keeps the low bits. */
  function Narrow(negative: bool, v: nat): (n: nat)
    ensures n < 65536
    ensures !negative && v < 65536 ==> n == v
  {
    if v >= 0x1_0000_0000_0000_0000 then 0xffff
    else if negative then (65536 - v % 65536) % 65536
    else v % 65536
  }

  function Signed(n: Number): int
    requires n.Number?
  {
    var v: int := n.value;
    if n.negative then -v else v
  }

  function ScanHead(s: seq<byte>): (h: Head)
    ensures h.Head? ==> h.next <= |s| && h.len < 65536 && 0 < |s| && h.leader == s[0]
  {
    if s == [] then NoHead
    else
      var no := ScanNumber(s, 1, |s|);
      if no.NoNumber? || |s| < no.next + 3 || s[no.next] != ',' || s[no.next + 2] != ',' then NoHead
      else
        var len := ScanNumber(s, no.next + 3, 4);
        if len.NoNumber? then NoHead
        else Head(s[0], Narrow(no.negative, no.value), s[no.next + 1], Signed(len), len.next)
  }

  function ScanField(s: seq<byte>, i: nat, width: nat): (f: Field)
    requires i <= |s|
    ensures f.Field? ==> f.next <= |s| && f.value < 65536
  {
    if i == |s| || s[i] != ',' then NoField
    else
      var n := ScanNumber(s, i + 1, width);
      if n.NoNumber? then NoField else Field(Narrow(n.negative, n.value), n.next)
  }

  /** What one of the three sscanf calls yields, and the fixed length its reader expects. */
  datatype Scan = NoScan | Scan(
    overhead: nat, leader: byte, seat: byte, seqno: nat, len: int, srcid: nat, reqcrc16: nat)

  /** "%c%x,%c,%4x,%4x:" of __srrp_read_one_request */
  function ScanRequest(s: seq<byte>): Scan {
    var h := ScanHead(s);
    if h.NoHead? then NoScan
    else
      var src := ScanField(s, h.next, 4);
      if src.NoField? then NoScan else Scan(15, h.leader, h.seat, h.seqno, h.len, src.value, 0)
  }

  /** "%c%x,%c,%4x,%4x,%x:/" of __srrp_read_one_response */
  function ScanResponse(s: seq<byte>): Scan {
    var h := ScanHead(s);
    if h.NoHead? then NoScan
    else
      var src := ScanField(s, h.next, 4);
      if src.NoField? then NoScan
      else
        var crc := ScanField(s, src.next, |s|);
        if crc.NoField? then NoScan else Scan(20, h.leader, h.seat, h.seqno, h.len, src.value, crc.value)
  }

  /** "%c%x,%c,%4x:" of __srrp_read_one_subpub */
  function ScanSubPub(s: seq<byte>): Scan {
    var h := ScanHead(s);
    if h.NoHead? then NoScan else Scan(10, h.leader, h.seat, h.seqno, h.len, 0, 0)
  }

  /** The fixed part of the length the reader of this leader expects. */
  function ExpectedOverhead(leader: byte): nat {
    if leader == REQUEST_LEADER then 15 else if leader == RESPONSE_LEADER then 20 else 10
  }

  /** The choice of srrp_read_one_packet by the first byte. */
  function ScanOne(s: seq<byte>): (sc: Scan)
    ensures sc.Scan? ==>
              && IsLeader(sc.leader) && sc.overhead == ExpectedOverhead(sc.leader)
              && sc.len < 65536 && sc.srcid < 65536 && sc.reqcrc16 < 65536
  {
    if s == [] then NoScan
    else if s[0] == REQUEST_LEADER then ScanRequest(s)
    else if s[0] == RESPONSE_LEADER then ScanResponse(s)
    else if IsSubPubLeader(s[0]) then ScanSubPub(s)
    else NoScan
  }

  /** The common end of the readers: split at the first ":/" and the first "?{", and accept if
      the lengths add up to the announced one. */
  function Finish(m: seq<byte>, sc: Scan): ReadResult
    requires sc.Scan?
  {
    var s := CString(m);
    var h, d := FindPair(s, ':', '/'), FindPair(s, '?', '{');
    if h == |s| || d == |s| then NoPacket
    else if sc.len < 0 || d <= h || d - (h + 1) >= HEADER_LEN then Overrun
    else
      var header, data := s[h + 1..d], s[d + 1..];
      if sc.overhead + |header| + 1 + |data| + 1 != sc.len then NoPacket
      else
        var raw := m[..if sc.len < |m| then sc.len else |m|];
        Read(Packet(sc.leader, sc.seat, sc.seqno, sc.len, sc.srcid, sc.reqcrc16, header, data, raw))
  }

  /** srrp_read_one_packet on the memory at the read position. */
  function ReadOne(m: seq<byte>): ReadResult {
    var sc := ScanOne(CString(m));
    if sc.NoScan? then NoPacket else Finish(m, sc)
  }

  // ---------------------------------------------------------------- writers

  datatype Kind = Request(srcid: nat) | Response(srcid: nat, reqcrc16: nat) | Subscribe | Unsubscribe | Publish

  predicate ValidKind(k: Kind) {
    && (k.Request? || k.Response? ==> k.srcid < 65536)
    && (k.Response? ==> k.reqcrc16 < 65536)
  }

  function Leader(k: Kind): byte {
    match k
    case Request(_) => REQUEST_LEADER
    case Response(_, _) => RESPONSE_LEADER
    case Subscribe => SUBSCRIBE_LEADER
    case Unsubscribe => UNSUBSCRIBE_LEADER
    case Publish => PUBLISH_LEADER
  }

  /** How many bytes stand before the header. */
  function Overhead(k: Kind): nat {
    match k
    case Request(_) => 15
    case Response(_, _) => 20
    case _ => 10
  }

  function WrittenLen(k: Kind, header: seq<byte>, data: seq<byte>): nat {
    Overhead(k) + |header| + 1 + |data| + 1
  }

  /** What the writers ask of their callers: C strings, and a length the source asserts. An
      unsubscription always carries "{}". */
  predicate CanWrite(k: Kind, header: seq<byte>, data: seq<byte>) {
    && ValidKind(k)
    && IsText(header) && IsText(data)
    && WrittenLen(k, header, data) < LENGTH_MAX - 4
    && (k.Unsubscribe? ==> data == "{}")
  }

  function Fields(k: Kind, len: nat): (f: seq<byte>)
    requires ValidKind(k) && len < 65536
    ensures |f| == Overhead(k) - 6
  {
    match k
    case Request(srcid) => Hex4(len) + "," + Hex4(srcid)
    case Response(srcid, crc) => Hex4(len) + "," + Hex4(srcid) + "," + Hex4(crc)
    case _ => Hex4(len)
  }

  /** Everything before the ':' of the header. */
  function Prefix(k: Kind, len: nat): (p: seq<byte>)
    requires ValidKind(k) && len < 65536
    ensures |p| == Overhead(k) - 1
  {
    [Leader(k)] + "0,$," + Fields(k, len)
  }

  function Text(k: Kind, header: seq<byte>, data: seq<byte>): (s: seq<byte>)
    requires CanWrite(k, header, data)
    ensures |s| + 1 == WrittenLen(k, header, data)
  {
    Prefix(k, WrittenLen(k, header, data)) + ":" + header + "?" + data
  }

  /** The five srrp_write_* functions. */
  function Write(k: Kind, header: seq<byte>, data: seq<byte>): Packet
    requires CanWrite(k, header, data)
  {
    Packet(Leader(k), '$', 0, WrittenLen(k, header, data),
           if k.Request? || k.Response? then k.srcid else 0,
           if k.Response? then k.reqcrc16 else 0,
           if |header| < HEADER_LEN then header else header[..HEADER_LEN - 1],
           data, Text(k, header, data) + [NUL])
  }

  // ---------------------------------------------------------------- resynchronisation

  /** The byte after place p of a C string. */
  function After(s: seq<byte>, p: nat): byte {
    if p + 1 < |s| then s[p + 1] else NUL
  }

  /** Whether the first occurrence of a leader may start a packet; before is the byte in front
      of the buffer, which the source reads when the occurrence is at the very start. */
  predicate Starts(before: byte, s: seq<byte>, leader: byte) {
    var p := IndexOf(s, leader);
    && p < |s|
    && (if p == 0 then before else s[p - 1]) != leader
    && IsDigit(After(s, p))
  }

  /** The kinds in the order in which they are searched for. */
  const LEADERS: seq<byte> :=
    [REQUEST_LEADER, RESPONSE_LEADER, SUBSCRIBE_LEADER, UNSUBSCRIBE_LEADER, PUBLISH_LEADER]

  /** The first occurrence of the first leader that may start a packet, or -1. */
  function FirstStart(before: byte, s: seq<byte>, leaders: seq<byte>): int {
    if leaders == [] then -1
    else if Starts(before, s, leaders[0]) then IndexOf(s, leaders[0])
    else FirstStart(before, s, leaders[1..])
  }

  /** srrp_next_packet_offset */
  function NextPacketOffset(before: byte, m: seq<byte>): int {
    var s := CString(m);
    if s != [] && IsDigit(After(s, 0)) && IsLeader(s[0]) then 0 else FirstStart(before, s, LEADERS)
  }
}
