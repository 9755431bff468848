/** What waits at the descriptors, as values: the unread bytes and when the last of them arrived, and
    what a poll makes of them. */
module Inboxes {
  import opened Bytes
  import opened Framing
  import opened BusModel

  /** PARSE_PACKET_TIMEOUT / 1000 */
  const PARSE_TIMEOUT := 1

  /** What waits at a descriptor: its unread bytes and when the last of them arrived. */
  datatype Inbox = Inbox(fd: int, rx: seq<byte>, tsRecv: nat)

  function Received(box: Inbox, chunk: seq<byte>, now: nat): Inbox {
    if chunk == [] then box else box.(rx := box.rx + chunk, tsRecv := now)
  }

  function ReceivedAll(boxes: seq<Inbox>, chunks: seq<seq<byte>>, now: nat): (r: seq<Inbox>)
    requires |boxes| == |chunks|
    ensures |r| == |boxes| && forall i | 0 <= i < |r| :: r[i] == Received(boxes[i], chunks[i], now)
  {
    seq(|boxes|, i requires 0 <= i < |boxes| => Received(boxes[i], chunks[i], now))
  }

  function ParsedBox(read: Reader, box: Inbox, now: nat): Parsed
    requires Progressive(read)
  {
    ParseWith(read, box.rx, now >= box.tsRecv + PARSE_TIMEOUT)
  }

  function Overruns(read: Reader, boxes: seq<Inbox>, now: nat): (r: seq<bool>)
    requires Progressive(read)
    ensures |r| == |boxes| && forall i | 0 <= i < |r| :: r[i] == ParsedBox(read, boxes[i], now).overrun
  {
    seq(|boxes|, i requires 0 <= i < |boxes| => ParsedBox(read, boxes[i], now).overrun)
  }

  /** A descriptor's bytes lead the reader out of the packet's header array. */
  ghost predicate AnyOverrun(read: Reader, boxes: seq<Inbox>, now: nat)
    requires Progressive(read)
  {
    true in Overruns(read, boxes, now)
  }

  function LeftBox(read: Reader, box: Inbox, now: nat): Inbox
    requires Progressive(read)
  {
    box.(rx := ParsedBox(read, box, now).rest)
  }

  function LeftAll(read: Reader, boxes: seq<Inbox>, now: nat): (r: seq<Inbox>)
    requires Progressive(read)
    ensures |r| == |boxes| && forall i | 0 <= i < |r| :: r[i] == LeftBox(read, boxes[i], now)
  {
    seq(|boxes|, i requires 0 <= i < |boxes| => LeftBox(read, boxes[i], now))
  }

  function Arrivals(read: Reader, boxes: seq<Inbox>, now: nat): (r: seq<Arrival>)
    requires Progressive(read)
    ensures |r| == |boxes|
    ensures forall i | 0 <= i < |r| :: r[i] == Arrival(boxes[i].fd, ParsedBox(read, boxes[i], now).packets)
  {
    seq(|boxes|, i requires 0 <= i < |boxes| => Arrival(boxes[i].fd, ParsedBox(read, boxes[i], now).packets))
  }
}
