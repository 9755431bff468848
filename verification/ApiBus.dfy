/** The bus as the source runs it: lists updated in place by loops, over descriptors whose bytes
    wait in compacting buffers. Every method is proved against the values of BusModel. */
module ApiBusModule {
  import opened Sequences
  import opened Bytes
  import opened Srrp
  import opened Framing
  import opened AtbufModel
  import opened BusModel
  import opened Inboxes
  import opened ByteRuns

  class Sinkfd {
    const fd: int
    const rxbuf: Atbuf
    var tsPollRecv: nat

    constructor (fd: int)
      ensures this.fd == fd && tsPollRecv == 0 && rxbuf.raw.Length == 4096
      ensures fresh(rxbuf) && fresh(rxbuf.raw) && rxbuf.Valid() && rxbuf.Contents() == []
    {
      this.fd := fd;
      tsPollRecv := 0;
      rxbuf := new Atbuf(0);
    }

    /** recv into the spare room when these bytes are waiting, and atbuf_write_advance. When they
        fill the room, or more, that function's assertion fails: ok is false. */
    method Recv(chunk: seq<byte>, now: nat) returns (ok: bool)
      requires rxbuf.Valid()
      modifies this, rxbuf, rxbuf.raw
      ensures ok <==> !Fills(chunk, old(rxbuf.Spare()))
      ensures Light(rxbuf.raw.Length, |old(rxbuf.Contents())|, chunk) ==> ok
      ensures ok ==> rxbuf.Valid() && rxbuf.raw == old(rxbuf.raw)
      ensures ok ==> rxbuf.Contents() == old(rxbuf.Contents()) + chunk
      ensures ok ==> tsPollRecv == if chunk == [] then old(tsPollRecv) else now
    {
      ok := !Fills(chunk, rxbuf.Spare());
      if ok && chunk != [] {
        rxbuf.Append(chunk);
        tsPollRecv := now;
      }
    }
  }

  /** Bytes that leave no room in a buffer. */
  predicate Fills(chunk: seq<byte>, room: nat) {
    chunk != [] && |chunk| >= room
  }

  /** Bytes of which there are less than a quarter of the buffer, and which fit beside the unread
      ones. */
  predicate Light(size: nat, unread: nat, chunk: seq<byte>) {
    chunk == [] || (|chunk| < size / 4 && unread + |chunk| < size)
  }

  /** What compaction says of a buffer's spare room. */
  predicate Ample(size: nat, unread: nat, room: nat) {
    room + unread <= size && (room + unread == size || room >= size / 4)
  }

  ghost function Buffers(sinkfds: seq<Sinkfd>): set<object>
    reads set s | s in sinkfds :: s.rxbuf
  {
    (set s | s in sinkfds :: s as object) + (set s | s in sinkfds :: s.rxbuf as object)
    + (set s | s in sinkfds :: s.rxbuf.raw as object)
  }

  /** No two descriptors share a buffer. */
  ghost predicate Separate(sinkfds: seq<Sinkfd>)
    reads set s | s in sinkfds :: s.rxbuf
  {
    forall i, j | 0 <= i < |sinkfds| && 0 <= j < |sinkfds| && i != j ::
      && sinkfds[i] != sinkfds[j] && sinkfds[i].rxbuf != sinkfds[j].rxbuf
      && sinkfds[i].rxbuf.raw != sinkfds[j].rxbuf.raw
  }

  ghost predicate HoldsBox(s: Sinkfd, box: Inbox)
    reads s, s.rxbuf, s.rxbuf.raw
  {
    s.rxbuf.Valid() && box == Inbox(s.fd, s.rxbuf.Contents(), s.tsPollRecv)
  }

  ghost predicate HoldsRoom(s: Sinkfd, box: Inbox, room: nat)
    reads s, s.rxbuf, s.rxbuf.raw
  {
    HoldsBox(s, box) && room == s.rxbuf.Spare()
  }

  ghost predicate Holds(sinkfds: seq<Sinkfd>, boxes: seq<Inbox>)
    reads sinkfds, set s | s in sinkfds :: s.rxbuf, set s | s in sinkfds :: s.rxbuf.raw
  {
    |sinkfds| == |boxes| && forall i | 0 <= i < |sinkfds| :: HoldsBox(sinkfds[i], boxes[i])
  }

  ghost predicate AnyFills(chunks: seq<seq<byte>>, rooms: seq<nat>)
    requires |chunks| == |rooms|
  {
    exists i | 0 <= i < |chunks| :: Fills(chunks[i], rooms[i])
  }

  /** The spare room of each descriptor's buffer. */
  ghost function Rooms(sinkfds: seq<Sinkfd>): (r: seq<nat>)
    requires forall i | 0 <= i < |sinkfds| :: sinkfds[i].rxbuf.offsetIn <= sinkfds[i].rxbuf.raw.Length
    reads set s | s in sinkfds :: s.rxbuf, set s | s in sinkfds :: s.rxbuf.raw
    ensures |r| == |sinkfds| && forall i | 0 <= i < |sinkfds| :: r[i] == sinkfds[i].rxbuf.Spare()
  {
    if sinkfds == [] then [] else [sinkfds[0].rxbuf.Spare()] + Rooms(sinkfds[1..])
  }

  function Sizes(sinkfds: seq<Sinkfd>): (r: seq<nat>)
    reads set s | s in sinkfds :: s.rxbuf
    ensures |r| == |sinkfds| && forall i | 0 <= i < |sinkfds| :: r[i] == sinkfds[i].rxbuf.raw.Length
  {
    if sinkfds == [] then [] else [sinkfds[0].rxbuf.raw.Length] + Sizes(sinkfds[1..])
  }

  ghost predicate AllAmple(sizes: seq<nat>, boxes: seq<Inbox>, rooms: seq<nat>)
    requires |sizes| == |boxes| == |rooms|
  {
    forall k | 0 <= k < |boxes| :: Ample(sizes[k], |boxes[k].rx|, rooms[k])
  }

  ghost predicate AllLight(sizes: seq<nat>, boxes: seq<Inbox>, chunks: seq<seq<byte>>)
    requires |sizes| == |boxes| == |chunks|
  {
    forall k | 0 <= k < |boxes| :: Light(sizes[k], |boxes[k].rx|, chunks[k])
  }

  lemma RoomsAreAmple(sinkfds: seq<Sinkfd>, boxes: seq<Inbox>)
    requires Holds(sinkfds, boxes)
    ensures AllAmple(Sizes(sinkfds), boxes, Rooms(sinkfds))
  {
    forall k | 0 <= k < |boxes|
      ensures Ample(Sizes(sinkfds)[k], |boxes[k].rx|, Rooms(sinkfds)[k])
    {
      assert HoldsBox(sinkfds[k], boxes[k]);
    }
  }

  /** One descriptor's share of the delivery. */
  method Deliver(sk: Sinkfd, ghost box: Inbox, chunk: seq<byte>, now: nat, ghost room: nat, ghost full: Inbox) returns (ok: bool)
    requires HoldsRoom(sk, box, room) && full == Received(box, chunk, now)
    modifies sk, sk.rxbuf, sk.rxbuf.raw
    ensures ok <==> !Fills(chunk, room)
    ensures ok ==> HoldsBox(sk, full) && sk.rxbuf.raw == old(sk.rxbuf.raw)
  {
    ok := sk.Recv(chunk, now);
  }

  /** The sinks deliver what has arrived, unless it fills a buffer. */
  method DeliverAll(sinkfds: seq<Sinkfd>, ghost boxes: seq<Inbox>, chunks: seq<seq<byte>>, now: nat, ghost rooms: seq<nat>,
                    ghost full: seq<Inbox>) returns (ok: bool)
    requires Separate(sinkfds) && Holds(sinkfds, boxes) && |chunks| == |sinkfds| == |rooms|
    requires forall i | 0 <= i < |sinkfds| :: rooms[i] == sinkfds[i].rxbuf.Spare()
    requires |full| == |boxes| && forall i | 0 <= i < |full| :: full[i] == Received(boxes[i], chunks[i], now)
    modifies Buffers(sinkfds)
    ensures ok <==> !AnyFills(chunks, rooms)
    ensures ok ==> Holds(sinkfds, full)
    ensures ok ==> forall i | 0 <= i < |sinkfds| :: sinkfds[i].rxbuf.raw == old(sinkfds[i].rxbuf.raw)
  {
    for i := 0 to |sinkfds|
      invariant forall k | 0 <= k < |sinkfds| :: sinkfds[k].rxbuf.raw == old(sinkfds[k].rxbuf.raw)
      invariant forall k | 0 <= k < i :: !Fills(chunks[k], rooms[k])
      invariant forall k | 0 <= k < i :: HoldsBox(sinkfds[k], full[k])
      invariant forall k | i <= k < |sinkfds| :: HoldsRoom(sinkfds[k], boxes[k], rooms[k])
    {
      assert sinkfds[i] in sinkfds;
      ok := Deliver(sinkfds[i], boxes[i], chunks[i], now, rooms[i], full[i]);
      if !ok {
        return false;
      }
    }
    return true;
  }

  lemma ParseWithCases(read: Reader, rx: seq<byte>, expired: bool)
    requires Progressive(read)
    ensures var e, p := Extract(read, rx), ParseWith(read, rx, expired);
            && p.packets == e.packets && p.overrun == e.overrun
            && p.rest == if expired && !e.overrun && e.rest != [] then Resync(e.rest) else e.rest
  {
  }

  /** How a poll ends: normally, with a failed assertion of a full buffer, or with the reader outside
      its header array. */
  datatype Verdict = Polled | Full | Overran

  ghost function VerdictOf(read: Reader, boxes: seq<Inbox>, chunks: seq<seq<byte>>, rooms: seq<nat>, now: nat): Verdict
    requires Progressive(read) && |boxes| == |chunks| == |rooms|
  {
    if AnyFills(chunks, rooms) then Full
    else if AnyOverrun(read, ReceivedAll(boxes, chunks, now), now) then Overran
    else Polled
  }

  /** The states a bus goes through as the descriptors' packets are accepted in turn. */
  ghost function States(s: State, all: seq<Arrival>, now: nat): (r: seq<State>)
    ensures |r| == |all| + 1 && r[0] == s && r[|all|] == AcceptArrivals(s, all, now)
    ensures forall k | 0 <= k < |all| :: r[k + 1] == AcceptAll(r[k], all[k].fd, all[k].packets, now)
    decreases |all|
  {
    if all == [] then [s]
    else
      var r := States(AcceptAll(s, all[0].fd, all[0].packets, now), all[1..], now);
      assert forall k | 1 <= k < |all| :: all[k] == all[1..][k - 1];
      [s] + r
  }

  /** What one descriptor's turn does to the bus and to the descriptor. */
  ghost predicate Turn(read: Reader, s: State, box: Inbox, s': State, box': Inbox, over: bool, now: nat)
    requires Progressive(read)
  {
    && s' == AcceptAll(s, box.fd, ParsedBox(read, box, now).packets, now) && box' == LeftBox(read, box, now)
    && over == ParsedBox(read, box, now).overrun
  }

  /** Parsing the unread bytes rx from state s still leads to the state goal, the rest and the
      verdict of the whole run. */
  ghost predicate LeadsTo(read: Reader, rx: seq<byte>, s: State, fd: int, now: nat, goal: State, rest: seq<byte>, overrun: bool)
    requires Progressive(read)
  {
    var e := Extract(read, rx);
    AcceptAll(s, fd, e.packets, now) == goal && e.rest == rest && e.overrun == overrun
  }

  lemma LeadsToStep(read: Reader, rx: seq<byte>, pac: Packet, s: State, fd: int, now: nat, goal: State, rest: seq<byte>, overrun: bool)
    requires Progressive(read) && rx != [] && read(rx + [NUL]) == ReadResult.Read(pac)
    requires LeadsTo(read, rx, s, fd, now, goal, rest, overrun)
    ensures LeadsTo(read, Advance(rx, pac.len), Accept(s, fd, pac, now), fd, now, goal, rest, overrun)
  {
    var pacs := Extract(read, Advance(rx, pac.len)).packets;
    assert ([pac] + pacs)[1..] == pacs;
  }

  lemma LeadsToEnd(read: Reader, rx: seq<byte>, s: State, fd: int, now: nat, goal: State, rest: seq<byte>, overrun: bool)
    requires Progressive(read) && LeadsTo(read, rx, s, fd, now, goal, rest, overrun)
    requires rx == [] || !read(rx + [NUL]).Read?
    ensures s == goal && rx == rest && overrun == (rx != [] && read(rx + [NUL]).Overrun?)
  {
  }

  class ApiBus {
    var requests: seq<ApiRequest>
    var responses: seq<ApiResponse>
    var stations: seq<Station>
    var topicMsgs: seq<TopicMsg>
    ghost var sent: seq<Send>
    ghost var accepted: seq<ApiRequest>
    var nextId: nat

    ghost predicate Valid()
      reads this
    {
      nextId == |accepted|
    }

    ghost function View(): State
      reads this
    {
      State(requests, responses, stations, topicMsgs, sent, accepted)
    }

    /** apibus_new */
    constructor ()
      ensures Valid() && View() == EMPTY
    {
      requests, responses, stations, topicMsgs, sent, accepted, nextId := [], [], [], [], [], [], 0;
    }

    /** The queueing part of parse_packet. */
    method AcceptPacket(pac: Packet, fd: int, now: nat)
      requires Valid()
      modifies this
      ensures Valid() && View() == Accept(old(View()), fd, pac, now)
    {
      if pac.leader == REQUEST_LEADER {
        var r := ApiRequest(nextId, pac, false, now, 0, fd, CorrelationCrc(pac));
        requests := [r] + requests;
        accepted := accepted + [r];
        nextId := nextId + 1;
      } else if pac.leader == RESPONSE_LEADER {
        responses := [ApiResponse(pac, fd)] + responses;
      } else if IsSubPubLeader(pac.leader) {
        topicMsgs := [TopicMsg(pac, fd)] + topicMsgs;
      }
    }

    /** What stays of the bytes that no packet starts with. */
    ghost function Leftover(sk: Sinkfd, now: nat, rest: seq<byte>, overrun: bool): seq<byte>
      reads sk
    {
      if now >= sk.tsPollRecv + PARSE_TIMEOUT && !overrun && rest != [] then Resync(rest) else rest
    }

    /** One round of parse_packet's loop. */
    method TakeOne(read: Reader, sk: Sinkfd, now: nat) returns (res: ReadResult)
      requires Valid() && sk.rxbuf.Valid()
      modifies this, sk.rxbuf, sk.rxbuf.raw
      ensures Valid() && sk.rxbuf.Valid() && sk.rxbuf.raw == old(sk.rxbuf.raw)
      ensures res == read(old(sk.rxbuf.Contents()) + [NUL])
      ensures res.Read? ==> View() == Accept(old(View()), sk.fd, res.pac, now)
      ensures res.Read? ==> sk.rxbuf.Contents() == Advance(old(sk.rxbuf.Contents()), res.pac.len)
      ensures !res.Read? ==> View() == old(View()) && sk.rxbuf.Contents() == old(sk.rxbuf.Contents())
    {
      var unread := sk.rxbuf.Peek(sk.rxbuf.Used());
      assert unread == sk.rxbuf.Contents();
      res := read(unread + [NUL]);
      if res.Read? {
        AcceptPacket(res.pac, sk.fd, now);
        var _ := sk.rxbuf.ReadAdvance(res.pac.len);
      }
    }

    /** A round on the way to a goal: one step nearer, or there. */
    method TakeToward(read: Reader, sk: Sinkfd, now: nat, ghost goal: State, ghost rest: seq<byte>, ghost overrun: bool)
      returns (res: ReadResult)
      requires Progressive(read) && Valid() && sk.rxbuf.Valid() && sk.rxbuf.Used() != 0
      requires LeadsTo(read, sk.rxbuf.Contents(), View(), sk.fd, now, goal, rest, overrun)
      modifies this, sk.rxbuf, sk.rxbuf.raw
      ensures Valid() && sk.rxbuf.Valid() && sk.rxbuf.raw == old(sk.rxbuf.raw)
      ensures res.Read? ==> sk.rxbuf.Used() < old(sk.rxbuf.Used())
      ensures res.Read? ==> LeadsTo(read, sk.rxbuf.Contents(), View(), sk.fd, now, goal, rest, overrun)
      ensures !res.Read? ==>
                && View() == goal && overrun == res.Overrun?
                && sk.rxbuf.Contents() == Leftover(sk, now, rest, overrun)
    {
      ghost var unread, before := sk.rxbuf.Contents(), View();
      assert |unread| == sk.rxbuf.Used();
      res := TakeOne(read, sk, now);
      if res.Read? {
        LeadsToStep(read, unread, res.pac, before, sk.fd, now, goal, rest, overrun);
        assert sk.rxbuf.Used() == |Advance(unread, res.pac.len)|;
      } else {
        LeadsToEnd(read, unread, before, sk.fd, now, goal, rest, overrun);
        Leave(sk, now, res.Overrun?);
      }
    }

    /** The loop of parse_packet: take packets off the buffer until the reader finds none. */
    method TakeLoop(read: Reader, sk: Sinkfd, now: nat, ghost goal: State, ghost rest: seq<byte>, ghost over: bool)
      returns (overrun: bool)
      requires Progressive(read) && Valid() && sk.rxbuf.Valid()
      requires LeadsTo(read, sk.rxbuf.Contents(), View(), sk.fd, now, goal, rest, over)
      modifies this, sk.rxbuf, sk.rxbuf.raw
      ensures overrun == over && Valid() && View() == goal && sk.rxbuf.Valid() && sk.rxbuf.raw == old(sk.rxbuf.raw)
      ensures sk.rxbuf.Contents() == Leftover(sk, now, rest, over)
    {
      while sk.rxbuf.Used() != 0
        invariant Valid() && sk.rxbuf.Valid() && sk.rxbuf.raw == old(sk.rxbuf.raw)
        invariant LeadsTo(read, sk.rxbuf.Contents(), View(), sk.fd, now, goal, rest, over)
        decreases sk.rxbuf.Used()
      {
        var res := TakeToward(read, sk, now, goal, rest, over);
        if !res.Read? {
          return res.Overrun?;
        }
      }
      LeadsToEnd(read, sk.rxbuf.Contents(), View(), sk.fd, now, goal, rest, over);
      overrun := false;
    }

    /** parse_packet with its reader: when bytes are left that no packet starts with, wait for
        more, or once the timeout since the last arrival has passed skip to where a packet may
        start. */
    method ParseBuffer(read: Reader, sk: Sinkfd, now: nat) returns (overrun: bool)
      requires Progressive(read) && Valid() && sk.rxbuf.Valid()
      modifies this, sk.rxbuf, sk.rxbuf.raw
      ensures var p := ParseWith(read, old(sk.rxbuf.Contents()), now >= sk.tsPollRecv + PARSE_TIMEOUT);
              && overrun == p.overrun
              && (!overrun ==>
                    && Valid() && sk.rxbuf.Valid() && sk.rxbuf.raw == old(sk.rxbuf.raw)
                    && View() == AcceptAll(old(View()), sk.fd, p.packets, now) && sk.rxbuf.Contents() == p.rest)
    {
      ghost var e := Extract(read, sk.rxbuf.Contents());
      ParseWithCases(read, sk.rxbuf.Contents(), now >= sk.tsPollRecv + PARSE_TIMEOUT);
      overrun := TakeLoop(read, sk, now, AcceptAll(View(), sk.fd, e.packets, now), e.rest, e.overrun);
    }

    /** What parse_packet does with the bytes it could not parse. */
    method Leave(sk: Sinkfd, now: nat, overrun: bool)
      requires sk.rxbuf.Valid()
      modifies sk.rxbuf, sk.rxbuf.raw
      ensures sk.rxbuf.Valid() && sk.rxbuf.raw == old(sk.rxbuf.raw)
      ensures sk.rxbuf.Contents() == Leftover(sk, now, old(sk.rxbuf.Contents()), overrun)
    {
      assert |sk.rxbuf.Contents()| == sk.rxbuf.Used();
      if !overrun && sk.rxbuf.Used() != 0 && now >= sk.tsPollRecv + PARSE_TIMEOUT {
        SkipUnparsed(sk);
      }
    }

    /** The resynchronisation of parse_packet. */
    method SkipUnparsed(sk: Sinkfd)
      requires sk.rxbuf.Valid() && sk.rxbuf.Contents() != []
      modifies sk.rxbuf, sk.rxbuf.raw
      ensures sk.rxbuf.Valid() && sk.rxbuf.raw == old(sk.rxbuf.raw)
      ensures sk.rxbuf.Contents() == Resync(old(sk.rxbuf.Contents()))
    {
      var unread := sk.rxbuf.Peek(sk.rxbuf.Used());
      assert unread == sk.rxbuf.Contents();
      var offset := NextPacketOffset(NUL, unread + [NUL]);
      var _ := sk.rxbuf.ReadAdvance(if offset <= 0 then |unread| else offset);
    }

    /** find_station */
    method FindStation(sttid: nat) returns (k: nat)
      ensures k == Find(stations, sttid)
    {
      k := 0;
      while k < |stations| && stations[k].sttid != sttid
        invariant k <= |stations|
        invariant k + Find(stations[k..], sttid) == Find(stations, sttid)
      {
        assert stations[k..][1..] == stations[k + 1..];
        k := k + 1;
      }
    }

    /** The station a header names, or |stations|. */
    method FindTarget(header: seq<byte>) returns (k: nat)
      ensures k == Target(stations, header)
    {
      match Destination(header) {
        case None => k := |stations|;
        case Some(id) => k := FindStation(id);
      }
    }

    /** add_station, or the refresh of a known source. */
    method See(r: ApiRequest, now: nat)
      modifies this`stations
      ensures stations == SeeSource(old(stations), r, now)
    {
      var k := FindStation(r.pac.srcid);
      if k == |stations| {
        stations := [Station(r.pac.srcid, now, r.fd)] + stations;
      } else {
        stations := stations[k := stations[k].(tsAlive := now)];
      }
    }

    /** handle_request */
    method HandleRequest(now: nat)
      modifies this
      ensures View() == HandleRequestsFrom(old(View()), 0, now)
      ensures nextId == old(nextId) && accepted == old(accepted) && topicMsgs == old(topicMsgs)
    {
      var k := 0;
      while k < |requests|
        invariant k <= |requests|
        invariant nextId == old(nextId) && accepted == old(accepted) && topicMsgs == old(topicMsgs)
        invariant HandleRequestsFrom(View(), k, now) == HandleRequestsFrom(old(View()), 0, now)
        decreases |requests| - k
      {
        var pos := requests[k];
        if pos.waiting {
          if now < pos.tsSend + REQUEST_TIMEOUT {
            k := k + 1;
          } else {
            sent := sent + [TimedOut(pos.id, pos.fd)];
            requests := Without(requests, k);
          }
        } else {
          See(pos, now);
          var dst := FindTarget(pos.pac.header);
          if dst == |stations| {
            sent := sent + [NotFound(pos.id, pos.fd)];
            requests := Without(requests, k);
          } else {
            sent := sent + [Forward(pos.id, stations[dst].fd, pos.pac.raw)];
            requests := requests[k := pos.(waiting := true, tsSend := now)];
            k := k + 1;
          }
        }
      }
    }

    /** The inner loop of handle_response. */
    method FindMatch(pac: Packet) returns (k: nat)
      ensures k == FirstMatch(requests, pac)
    {
      k := 0;
      while k < |requests| && !Matches(requests[k], pac)
        invariant k <= |requests|
        invariant k + FirstMatch(requests[k..], pac) == FirstMatch(requests, pac)
      {
        assert requests[k..][1..] == requests[k + 1..];
        k := k + 1;
      }
    }

    /** handle_response */
    method HandleResponse(now: nat)
      modifies this
      ensures View() == HandleResponses(old(View()), now)
      ensures nextId == old(nextId) && accepted == old(accepted) && topicMsgs == old(topicMsgs)
    {
      while responses != []
        invariant HandleResponses(View(), now) == HandleResponses(old(View()), now)
        invariant nextId == old(nextId) && accepted == old(accepted) && topicMsgs == old(topicMsgs)
        decreases |responses|
      {
        var pac := responses[0].pac;
        var k := FindMatch(pac);
        if k < |requests| {
          sent := sent + [Answer(requests[k].id, requests[k].fd, pac.raw)];
          requests := Without(requests, k);
        }
        var dst := FindTarget(pac.header);
        if dst < |stations| {
          stations := stations[dst := stations[dst].(tsAlive := now)];
        }
        responses := responses[1..];
      }
    }

    /** clear_unalive_station */
    method ClearUnaliveStation(now: nat)
      modifies this`stations
      ensures stations == ClearUnalive(old(stations), now)
    {
      var i := 0;
      while i < |stations|
        invariant i <= |stations|
        invariant stations[..i] + ClearUnalive(stations[i..], now) == ClearUnalive(old(stations), now)
        decreases |stations| - i
      {
        if now > stations[i].tsAlive + STATION_TIMEOUT {
          assert stations[i..][1..] == stations[i + 1..];
          assert Without(stations, i)[i..] == stations[i + 1..];
          stations := Without(stations, i);
        } else {
          assert stations[i..][1..] == stations[i + 1..];
          assert stations[..i + 1] == stations[..i] + [stations[i]];
          i := i + 1;
        }
      }
    }

    /** One descriptor's turn in the parsing loop of apibus_poll. */
    method ParseInbox(read: Reader, sk: Sinkfd, now: nat, ghost box: Inbox, ghost box': Inbox, ghost after: State, ghost over: bool)
      returns (overrun: bool)
      requires Progressive(read) && Valid() && HoldsBox(sk, box) && Turn(read, View(), box, after, box', over, now)
      modifies this, sk.rxbuf, sk.rxbuf.raw
      ensures overrun == over
      ensures !overrun ==> Valid() && View() == after && HoldsBox(sk, box') && sk.rxbuf.raw == old(sk.rxbuf.raw)
    {
      overrun := ParseBuffer(read, sk, now);
    }

    method ParseLoop(read: Reader, sinkfds: seq<Sinkfd>, now: nat, ghost boxes: seq<Inbox>, ghost left: seq<Inbox>,
                     ghost states: seq<State>, ghost overs: seq<bool>) returns (overrun: bool)
      requires Progressive(read) && Valid() && Separate(sinkfds) && Holds(sinkfds, boxes)
      requires |overs| == |left| == |boxes| && |states| == |boxes| + 1 && View() == states[0]
      requires forall k | 0 <= k < |boxes| :: Turn(read, states[k], boxes[k], states[k + 1], left[k], overs[k], now)
      modifies this, Buffers(sinkfds)
      ensures overrun <==> true in overs
      ensures !overrun ==> Valid() && View() == states[|boxes|] && Holds(sinkfds, left)
      ensures !overrun ==> forall k | 0 <= k < |sinkfds| :: sinkfds[k].rxbuf.raw == old(sinkfds[k].rxbuf.raw)
    {
      for i := 0 to |sinkfds|
        invariant Valid() && View() == states[i] && true !in overs[..i]
        invariant forall k | 0 <= k < |sinkfds| :: sinkfds[k].rxbuf.raw == old(sinkfds[k].rxbuf.raw)
        invariant forall k | 0 <= k < i :: HoldsBox(sinkfds[k], left[k])
        invariant forall k | i <= k < |sinkfds| :: HoldsBox(sinkfds[k], boxes[k])
      {
        assert sinkfds[i] in sinkfds;
        overrun := ParseInbox(read, sinkfds[i], now, boxes[i], left[i], states[i + 1], overs[i]);
        if overrun {
          return true;
        }
      }
      assert overs[..|sinkfds|] == overs;
      return false;
    }

    /** The parsing loop of apibus_poll. */
    method ParseAll(read: Reader, sinkfds: seq<Sinkfd>, ghost boxes: seq<Inbox>, now: nat) returns (overrun: bool)
      requires Progressive(read) && Valid() && Separate(sinkfds) && Holds(sinkfds, boxes)
      modifies this, Buffers(sinkfds)
      ensures overrun <==> AnyOverrun(read, boxes, now)
      ensures !overrun ==> Valid() && View() == AcceptArrivals(old(View()), Arrivals(read, boxes, now), now)
      ensures !overrun ==> Holds(sinkfds, LeftAll(read, boxes, now))
      ensures !overrun ==> forall k | 0 <= k < |sinkfds| :: sinkfds[k].rxbuf.raw == old(sinkfds[k].rxbuf.raw)
    {
      overrun := ParseLoop(read, sinkfds, now, boxes, LeftAll(read, boxes, now), States(View(), Arrivals(read, boxes, now), now),
                           Overruns(read, boxes, now));
    }

    /** The second half of apibus_poll. */
    method HandleAll(now: nat)
      requires Valid()
      modifies this
      ensures Valid() && View() == Handle(old(View()), now)
    {
      HandleRequest(now);
      HandleResponse(now);
      topicMsgs := [];
      ClearUnaliveStation(now);
    }

    /** The first half of apibus_poll: the sinks, then parsing. */
    method Gather(read: Reader, sinkfds: seq<Sinkfd>, ghost boxes: seq<Inbox>, chunks: seq<seq<byte>>, now: nat, ghost rooms: seq<nat>,
                  ghost full: seq<Inbox>) returns (v: Verdict)
      requires Progressive(read) && Valid() && Separate(sinkfds) && Holds(sinkfds, boxes) && |chunks| == |sinkfds| == |rooms|
      requires forall i | 0 <= i < |sinkfds| :: rooms[i] == sinkfds[i].rxbuf.Spare()
      requires full == ReceivedAll(boxes, chunks, now)
      modifies this, Buffers(sinkfds)
      ensures v == VerdictOf(read, boxes, chunks, rooms, now)
      ensures v.Polled? ==> Valid() && View() == AcceptArrivals(old(View()), Arrivals(read, full, now), now)
      ensures v.Polled? ==> Holds(sinkfds, LeftAll(read, full, now))
      ensures v.Polled? ==> forall k | 0 <= k < |sinkfds| :: sinkfds[k].rxbuf.raw == old(sinkfds[k].rxbuf.raw)
    {
      var ok := DeliverAll(sinkfds, boxes, chunks, now, rooms, full);
      if !ok {
        return Full;
      }
      var overrun := ParseAll(read, sinkfds, full, now);
      if overrun {
        return Overran;
      }
      return Polled;
    }

    /** apibus_poll, these bytes waiting at the sinks: unless they fill a buffer or overrun the
        reader, the bus makes exactly one poll step on the packets parsed at each descriptor. */
    method Poll(read: Reader, sinkfds: seq<Sinkfd>, ghost boxes: seq<Inbox>, chunks: seq<seq<byte>>, now: nat, ghost rooms: seq<nat>)
      returns (v: Verdict)
      requires Progressive(read) && Valid() && Separate(sinkfds) && Holds(sinkfds, boxes) && |chunks| == |sinkfds| == |rooms|
      requires forall i | 0 <= i < |sinkfds| :: rooms[i] == sinkfds[i].rxbuf.Spare()
      modifies this, Buffers(sinkfds)
      ensures v == VerdictOf(read, boxes, chunks, rooms, now)
      ensures v.Polled? ==>
                var full := ReceivedAll(boxes, chunks, now);
                && Valid() && View() == BusModel.Poll(old(View()), Arrivals(read, full, now), now)
                && Holds(sinkfds, LeftAll(read, full, now))
      ensures v.Polled? ==> forall k | 0 <= k < |sinkfds| :: sinkfds[k].rxbuf.raw == old(sinkfds[k].rxbuf.raw)
    {
      v := Gather(read, sinkfds, boxes, chunks, now, rooms, ReceivedAll(boxes, chunks, now));
      if v.Polled? {
        HandleAll(now);
      }
    }

    /** One poll of a run. */
    method PollOnce(read: Reader, sinkfds: seq<Sinkfd>, ghost b: ByteBus, input: ByteInput) returns (v: Verdict, ghost b': ByteBus)
      requires Progressive(read) && Valid() && Separate(sinkfds) && Holds(sinkfds, b.boxes) && View() == b.s
      requires |input.chunks| == |b.boxes|
      modifies this, Buffers(sinkfds)
      ensures v == VerdictOf(read, b.boxes, input.chunks, old(Rooms(sinkfds)), input.now)
      ensures v.Polled? ==> Defined(read, b, input) && b' == BytePoll(read, b, input)
      ensures v.Polled? ==> Valid() && View() == b'.s && Holds(sinkfds, b'.boxes)
      ensures v.Polled? ==> forall k | 0 <= k < |sinkfds| :: sinkfds[k].rxbuf.raw == old(sinkfds[k].rxbuf.raw)
    {
      b' := b;
      v := Poll(read, sinkfds, b.boxes, input.chunks, input.now, Rooms(sinkfds));
      if v.Polled? {
        b' := BytePoll(read, b, input);
      }
    }

    /** Polls in a row, up to the first that ends with a full buffer or an overrun: the polls before
        it are a run of bytes of the model, and its verdict follows from the bytes unread then, the
        bytes that arrive, and the spare rooms, which are as compaction leaves them. When every chunk
        is light and no poll leads the reader out of its arrays, there is no such poll. */
    method RunPolls(read: Reader, sinkfds: seq<Sinkfd>, ghost boxes: seq<Inbox>, inputs: seq<ByteInput>)
      returns (v: Verdict, done: nat, ghost rooms: seq<nat>)
      requires Progressive(read) && Valid() && Separate(sinkfds) && Holds(sinkfds, boxes) && Fits(boxes, inputs)
      modifies this, Buffers(sinkfds)
      ensures done <= |inputs| && (v.Polled? <==> done == |inputs|)
      ensures RunEnds(read, ByteBus(old(View()), boxes), old(Sizes(sinkfds)), inputs, v, done, rooms)
      ensures v.Polled? ==>
                var b := ByteRun(read, ByteBus(old(View()), boxes), inputs[..done]);
                Valid() && View() == b.s && Holds(sinkfds, b.boxes)
      ensures Smooth(read, ByteBus(old(View()), boxes), inputs, old(Sizes(sinkfds))) ==> v.Polled?
    {
      v, done, rooms := Polled, 0, [];
      ghost var start, sizes := ByteBus(View(), boxes), Sizes(sinkfds);
      ghost var b := start;
      while done < |inputs|
        invariant done <= |inputs| && v.Polled? && Valid() && View() == b.s && |b.boxes| == |boxes|
        invariant Runs(read, start, inputs[..done]) && b == ByteRun(read, start, inputs[..done])
        invariant Holds(sinkfds, b.boxes) && Sizes(sinkfds) == sizes
        invariant forall k | 0 <= k < |sinkfds| :: sinkfds[k].rxbuf.raw == old(sinkfds[k].rxbuf.raw)
      {
        RoomsAreAmple(sinkfds, b.boxes);
        rooms := Rooms(sinkfds);
        ghost var next;
        v, next := PollOnce(read, sinkfds, b, inputs[done]);
        if !v.Polled? {
          SmoothIsPolled(read, start, inputs, sizes, done, rooms, v);
          return;
        }
        RunOneMore(read, start, inputs, done, b, next);
        b, done := next, done + 1;
      }
    }
  }

  lemma PrefixAppend(inputs: seq<ByteInput>, k: nat)
    requires k < |inputs|
    ensures inputs[..k + 1] == inputs[..k] + [inputs[k]]
  {
  }

  lemma RunOneMore(read: Reader, start: ByteBus, inputs: seq<ByteInput>, k: nat, b: ByteBus, next: ByteBus)
    requires Progressive(read) && k < |inputs| && Runs(read, start, inputs[..k]) && b == ByteRun(read, start, inputs[..k])
    requires Defined(read, b, inputs[k]) && next == BytePoll(read, b, inputs[k])
    ensures Runs(read, start, inputs[..k + 1]) && next == ByteRun(read, start, inputs[..k + 1])
  {
    RunAppend(read, start, inputs[..k], inputs[k]);
    PrefixAppend(inputs, k);
  }

  /** The polls before poll number done are a run of the model, and if there is such a poll it ended
      with verdict v for the rooms given. */
  ghost predicate RunEnds(read: Reader, start: ByteBus, sizes: seq<nat>, inputs: seq<ByteInput>, v: Verdict, done: nat, rooms: seq<nat>)
    requires Progressive(read) && Fits(start.boxes, inputs) && done <= |inputs| && |sizes| == |start.boxes|
  {
    && Runs(read, start, inputs[..done])
    && (done < |inputs| ==>
          var b := ByteRun(read, start, inputs[..done]);
          && |rooms| == |b.boxes| && AllAmple(sizes, b.boxes, rooms)
          && v == VerdictOf(read, b.boxes, inputs[done].chunks, rooms, inputs[done].now))
  }

  /** A run in which every chunk is light and the reader stays inside its arrays. */
  ghost predicate Smooth(read: Reader, b: ByteBus, inputs: seq<ByteInput>, sizes: seq<nat>)
    requires Progressive(read) && Fits(b.boxes, inputs) && |sizes| == |b.boxes|
    decreases |inputs|
  {
    inputs != [] ==>
      && AllLight(sizes, b.boxes, inputs[0].chunks)
      && Defined(read, b, inputs[0]) && Smooth(read, BytePoll(read, b, inputs[0]), inputs[1..], sizes)
  }

  lemma PrefixTail(inputs: seq<ByteInput>, k: nat, k': nat)
    requires k == k' + 1 < |inputs|
    ensures inputs[..k][0] == inputs[0] && inputs[..k][1..] == inputs[1..][..k'] && inputs[1..][k'] == inputs[k]
  {
  }

  lemma {:induction false} SmoothAt(read: Reader, b: ByteBus, inputs: seq<ByteInput>, sizes: seq<nat>, k: nat)
    requires Progressive(read) && Fits(b.boxes, inputs) && |sizes| == |b.boxes| && k < |inputs|
    requires Smooth(read, b, inputs, sizes) && Runs(read, b, inputs[..k])
    ensures var u := ByteRun(read, b, inputs[..k]);
            Defined(read, u, inputs[k]) && AllLight(sizes, u.boxes, inputs[k].chunks)
    decreases |inputs|
  {
    if k > 0 {
      PrefixTail(inputs, k, k - 1);
      SmoothAt(read, BytePoll(read, b, inputs[0]), inputs[1..], sizes, k - 1);
    }
  }

  lemma LightNeverFills(sizes: seq<nat>, boxes: seq<Inbox>, chunks: seq<seq<byte>>, rooms: seq<nat>)
    requires |sizes| == |boxes| == |chunks| == |rooms|
    requires AllAmple(sizes, boxes, rooms) && AllLight(sizes, boxes, chunks)
    ensures !AnyFills(chunks, rooms)
  {
    forall k | 0 <= k < |chunks|
      ensures !Fills(chunks[k], rooms[k])
    {
      assert Ample(sizes[k], |boxes[k].rx|, rooms[k]) && Light(sizes[k], |boxes[k].rx|, chunks[k]);
    }
  }

  /** No poll of a smooth run ends otherwise than normally. */
  lemma SmoothIsPolled(read: Reader, start: ByteBus, inputs: seq<ByteInput>, sizes: seq<nat>, k: nat, rooms: seq<nat>, v: Verdict)
    requires Progressive(read) && Fits(start.boxes, inputs) && |sizes| == |start.boxes| && k < |inputs|
    requires RunEnds(read, start, sizes, inputs, v, k, rooms)
    ensures Smooth(read, start, inputs, sizes) ==> v.Polled?
  {
    if Smooth(read, start, inputs, sizes) {
      var u := ByteRun(read, start, inputs[..k]);
      SmoothAt(read, start, inputs, sizes, k);
      LightNeverFills(sizes, u.boxes, inputs[k].chunks, rooms);
    }
  }
}
