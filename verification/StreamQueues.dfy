/** Where the packets of a stream go: each queue of the bus receives its kind, newest first. */
module StreamQueues {
  import opened Sequences
  import Bytes
  import opened Srrp
  import opened Framing
  import opened BusModel
  import opened BusTheorems
  import opened Inboxes
  import opened TimedFraming
  import opened ByteRuns
  import opened Traffic

  /** What parsing alone does to the lists over one descriptor's deliveries; whatever is handled
      between polls is left out. */
  function Parsing(read: Reader, s: State, box: Inbox, ds: seq<Delivery>): State
    requires Progressive(read)
    decreases |ds|
  {
    if ds == [] then s
    else
      var full := Received(box, ds[0].chunk, ds[0].now);
      Parsing(read, AcceptAll(s, box.fd, ParsedBox(read, full, ds[0].now).packets, ds[0].now), LeftBox(read, full, ds[0].now), ds[1..])
  }

  lemma {:induction false} LatestConcat(a: seq<Packet>, b: seq<Packet>, kind: Bytes.byte -> bool)
    ensures Latest(a + b, kind) == Latest(b, kind) + Latest(a, kind)
  {
    if a == [] {
      assert a + b == b;
    } else {
      LatestConcat(a[1..], b, kind);
      assert (a + b)[1..] == a[1..] + b;
      Regroup(Latest(b, kind), Latest(a[1..], kind), One(a[0], kind));
    }
  }

  /** The queues of t are those of s with the packets in front, newest first. */
  ghost predicate Filled(s: State, t: State, pacs: seq<Packet>) {
    && PacsOf(t.requests, RequestPac) == Latest(pacs, IsRequestLeader) + PacsOf(s.requests, RequestPac)
    && PacsOf(t.responses, ResponsePac) == Latest(pacs, IsResponseLeader) + PacsOf(s.responses, ResponsePac)
    && PacsOf(t.topicMsgs, TopicPac) == Latest(pacs, IsSubPubLeader) + PacsOf(s.topicMsgs, TopicPac)
  }

  lemma FilledTwice(s: State, t: State, u: State, a: seq<Packet>, b: seq<Packet>)
    requires Filled(s, t, a) && Filled(t, u, b)
    ensures Filled(s, u, a + b)
  {
    LatestConcat(a, b, IsRequestLeader);
    LatestConcat(a, b, IsResponseLeader);
    LatestConcat(a, b, IsSubPubLeader);
    Regroup(Latest(b, IsRequestLeader), Latest(a, IsRequestLeader), PacsOf(s.requests, RequestPac));
    Regroup(Latest(b, IsResponseLeader), Latest(a, IsResponseLeader), PacsOf(s.responses, ResponsePac));
    Regroup(Latest(b, IsSubPubLeader), Latest(a, IsSubPubLeader), PacsOf(s.topicMsgs, TopicPac));
  }

  /** Whatever arrives at the descriptors of a poll fills the queues, in the order of descriptors and
      packets. */
  lemma {:induction false} ArrivalsFill(s: State, arrivals: seq<Arrival>, now: nat)
    ensures Filled(s, AcceptArrivals(s, arrivals, now), PacketsOf(arrivals))
    decreases |arrivals|
  {
    if arrivals == [] {
      NothingNew(s);
    } else {
      var a, t := arrivals[0], AcceptAll(s, arrivals[0].fd, arrivals[0].packets, now);
      QueuesNewestFirst(s, a.fd, a.packets, now);
      ArrivalsFill(t, arrivals[1..], now);
      FilledTwice(s, t, AcceptArrivals(s, arrivals, now), a.packets, PacketsOf(arrivals[1..]));
    }
  }

  /** The packets that the deliveries bring fill the queues. */
  lemma {:induction false} ParsingFills(read: Reader, s: State, t: Taken, ds: seq<Delivery>) returns (news: seq<Packet>)
    requires Progressive(read)
    ensures TakeTurns(read, t, ds).got == t.got + news && Filled(s, Parsing(read, s, t.box, ds), news)
    decreases |ds|
  {
    if ds == [] {
      news := [];
      assert t.got + [] == t.got;
      NothingNew(s);
    } else {
      var full := Received(t.box, ds[0].chunk, ds[0].now);
      var first := ParsedBox(read, full, ds[0].now).packets;
      var s', t' := AcceptAll(s, t.box.fd, first, ds[0].now), TakeTurn(read, t, ds[0]);
      QueuesNewestFirst(s, t.box.fd, first, ds[0].now);
      var rest := ParsingFills(read, s', t', ds[1..]);
      FilledTwice(s, s', Parsing(read, s, t.box, ds), first, rest);
      news := first + rest;
      Regroup(t.got, first, rest);
    }
  }

  lemma NothingNew(s: State)
    ensures Filled(s, s, [])
  {
    assert [] + PacsOf(s.requests, RequestPac) == PacsOf(s.requests, RequestPac);
    assert [] + PacsOf(s.responses, ResponsePac) == PacsOf(s.responses, ResponsePac);
    assert [] + PacsOf(s.topicMsgs, TopicPac) == PacsOf(s.topicMsgs, TopicPac);
  }

  lemma SameNews(a: seq<Packet>, b: seq<Packet>, c: seq<Packet>)
    requires a + b == a + c
    ensures b == c
  {
    assert b == (a + b)[|a|..] && c == (a + c)[|a|..];
  }

  /** A stream that survives its cuts and pauses ends up in the queues: the requests, the responses
      and the topic messages of the stream, each newest first, in front of what was there. */
  lemma StreamFillsQueues(ms: seq<Message>, s: State, t: Taken, ds: seq<Delivery>)
    requires Progressive(ReadOne) && forall i | 0 <= i < |ms| :: Good(ms[i])
    requires t.box.rx == [] && Chunks(ds) == Stream(Frames(ms)) && Survives(Frames(ms), false, 0, t.box.tsRecv, ds)
    ensures Filled(s, Parsing(ReadOne, s, t.box, ds), Packets(Frames(ms)))
  {
    StreamComesOutIff(ms, t, ds);
    var news := ParsingFills(ReadOne, s, t, ds);
    SameNews(t.got, news, Packets(Frames(ms)));
  }

  // ---------------------------------------------------------------- what the bus accepts over a run

  /** The requests among the packets, in order. */
  function RequestsIn(pacs: seq<Packet>): seq<Packet> {
    if pacs == [] then [] else One(pacs[0], IsRequestLeader) + RequestsIn(pacs[1..])
  }

  /** The packets of the requests that came from descriptor fd, in order. */
  function RequestsFrom(accepted: seq<ApiRequest>, fd: int): seq<Packet> {
    if accepted == [] then []
    else
      var last := accepted[|accepted| - 1];
      RequestsFrom(accepted[..|accepted| - 1], fd) + if last.fd == fd then [last.pac] else []
  }

  lemma {:induction false} RequestsInConcat(a: seq<Packet>, b: seq<Packet>)
    ensures RequestsIn(a + b) == RequestsIn(a) + RequestsIn(b)
  {
    if a == [] {
      assert a + b == b;
    } else {
      assert (a + b)[1..] == a[1..] + b;
      RequestsInConcat(a[1..], b);
      Regroup(One(a[0], IsRequestLeader), RequestsIn(a[1..]), RequestsIn(b));
    }
  }

  lemma AcceptFrom(s: State, from: int, pac: Packet, now: nat, fd: int)
    ensures RequestsFrom(Accept(s, from, pac, now).accepted, fd)
         == if from == fd then RequestsFrom(s.accepted, fd) + One(pac, IsRequestLeader) else RequestsFrom(s.accepted, fd)
  {
    var t := Accept(s, from, pac, now);
    if pac.leader == REQUEST_LEADER {
      assert t.accepted[..|s.accepted|] == s.accepted;
    }
  }

  lemma {:induction false} AcceptAllFrom(s: State, from: int, pacs: seq<Packet>, now: nat, fd: int)
    ensures RequestsFrom(AcceptAll(s, from, pacs, now).accepted, fd)
         == if from == fd then RequestsFrom(s.accepted, fd) + RequestsIn(pacs) else RequestsFrom(s.accepted, fd)
    decreases |pacs|
  {
    if pacs != [] {
      AcceptFrom(s, from, pacs[0], now, fd);
      AcceptAllFrom(Accept(s, from, pacs[0], now), from, pacs[1..], now, fd);
      Regroup(RequestsFrom(s.accepted, fd), One(pacs[0], IsRequestLeader), RequestsIn(pacs[1..]));
    }
  }

  lemma {:induction false} NoneFrom(s: State, arrivals: seq<Arrival>, now: nat, fd: int)
    requires forall j | 0 <= j < |arrivals| :: arrivals[j].fd != fd
    ensures RequestsFrom(AcceptArrivals(s, arrivals, now).accepted, fd) == RequestsFrom(s.accepted, fd)
    decreases |arrivals|
  {
    if arrivals != [] {
      var a := arrivals[0];
      AcceptAllFrom(s, a.fd, a.packets, now, fd);
      NoneFrom(AcceptAll(s, a.fd, a.packets, now), arrivals[1..], now, fd);
    }
  }

  /** Only arrival i is descriptor fd's. */
  predicate Only(arrivals: seq<Arrival>, i: nat, fd: int) {
    i < |arrivals| && arrivals[i].fd == fd && forall j | 0 <= j < |arrivals| && j != i :: arrivals[j].fd != fd
  }

  lemma OnlyTail(arrivals: seq<Arrival>, i: nat, fd: int)
    requires Only(arrivals, i, fd)
    ensures if i == 0 then forall j | 0 <= j < |arrivals[1..]| :: arrivals[1..][j].fd != fd
            else arrivals[0].fd != fd && Only(arrivals[1..], i - 1, fd) && arrivals[1..][i - 1] == arrivals[i]
  {
  }

  lemma FirstFrom(s: State, arrivals: seq<Arrival>, now: nat, fd: int)
    requires Only(arrivals, 0, fd)
    ensures RequestsFrom(AcceptArrivals(s, arrivals, now).accepted, fd)
         == RequestsFrom(s.accepted, fd) + RequestsIn(arrivals[0].packets)
  {
    OnlyTail(arrivals, 0, fd);
    AcceptAllFrom(s, fd, arrivals[0].packets, now, fd);
    NoneFrom(AcceptAll(s, fd, arrivals[0].packets, now), arrivals[1..], now, fd);
  }

  /** What several descriptors bring: from one of them come the requests among its own packets. */
  lemma {:induction false} ArrivalsFrom(s: State, arrivals: seq<Arrival>, now: nat, fd: int, i: nat)
    requires Only(arrivals, i, fd)
    ensures RequestsFrom(AcceptArrivals(s, arrivals, now).accepted, fd)
         == RequestsFrom(s.accepted, fd) + RequestsIn(arrivals[i].packets)
    decreases |arrivals|
  {
    if i == 0 {
      FirstFrom(s, arrivals, now, fd);
    } else {
      OnlyTail(arrivals, i, fd);
      AcceptAllFrom(s, arrivals[0].fd, arrivals[0].packets, now, fd);
      ArrivalsFrom(AcceptAll(s, arrivals[0].fd, arrivals[0].packets, now), arrivals[1..], now, fd, i - 1);
    }
  }

  lemma {:induction false} RequestPassAccepts(s: State, k: nat, now: nat)
    ensures HandleRequestsFrom(s, k, now).accepted == s.accepted
    decreases |s.requests| - k
  {
    if k < |s.requests| {
      var t := HandleRequestAt(s, k, now);
      RequestPassAccepts(t, if |t.requests| == |s.requests| then k + 1 else k, now);
    }
  }

  lemma {:induction false} ResponsePassAccepts(s: State, now: nat)
    ensures HandleResponses(s, now).accepted == s.accepted
    decreases |s.responses|
  {
    if s.responses != [] {
      ResponsePassAccepts(HandleResponse(s, now), now);
    }
  }

  /** In one poll. */
  lemma PollFrom(read: Reader, b: ByteBus, input: ByteInput, i: nat, t: Taken) returns (news: seq<Packet>)
    requires Progressive(read) && Defined(read, b, input) && i < |b.boxes| && t.box == b.boxes[i]
    requires forall j | 0 <= j < |b.boxes| && j != i :: b.boxes[j].fd != b.boxes[i].fd
    ensures var t', b' := TakeTurn(read, t, Delivery(input.chunks[i], input.now)), BytePoll(read, b, input);
            && t'.got == t.got + news && t'.box == b'.boxes[i] && b'.boxes[i].fd == b.boxes[i].fd
            && (forall j | 0 <= j < |b'.boxes| && j != i :: b'.boxes[j].fd != b'.boxes[i].fd)
            && RequestsFrom(b'.s.accepted, b.boxes[i].fd) == RequestsFrom(b.s.accepted, b.boxes[i].fd) + RequestsIn(news)
  {
    var arrivals := Parcels(read, b.boxes, input);
    var s0 := AcceptArrivals(b.s, arrivals, input.now);
    news := arrivals[i].packets;
    BoxTurn(read, b, input, i, t.got);
    assert forall j | 0 <= j < |arrivals| :: arrivals[j].fd == b.boxes[j].fd;
    ArrivalsFrom(b.s, arrivals, input.now, b.boxes[i].fd, i);
    RequestPassAccepts(s0, 0, input.now);
    ResponsePassAccepts(HandleRequestsFrom(s0, 0, input.now), input.now);
  }

  /** Over every run, the requests accepted from a descriptor are those among the packets that come
      out of it, in order. */
  lemma {:induction false} RunAcceptsFrom(read: Reader, b: ByteBus, inputs: seq<ByteInput>, i: nat, t: Taken) returns (news: seq<Packet>)
    requires Progressive(read) && Runs(read, b, inputs) && i < |b.boxes| && t.box == b.boxes[i]
    requires forall j | 0 <= j < |b.boxes| && j != i :: b.boxes[j].fd != b.boxes[i].fd
    ensures TakeTurns(read, t, Column(inputs, i)).got == t.got + news
    ensures var fd := b.boxes[i].fd;
            RequestsFrom(ByteRun(read, b, inputs).s.accepted, fd) == RequestsFrom(b.s.accepted, fd) + RequestsIn(news)
    decreases |inputs|
  {
    var ds := Column(inputs, i);
    if inputs == [] {
      news := [];
      assert t.got + [] == t.got;
    } else {
      ColumnTail(inputs, i, ds);
      var first := PollFrom(read, b, inputs[0], i, t);
      var rest := RunAcceptsFrom(read, BytePoll(read, b, inputs[0]), inputs[1..], i, TakeTurn(read, t, ds[0]));
      news := first + rest;
      RequestsInConcat(first, rest);
      Regroup(t.got, first, rest);
      Regroup(RequestsFrom(b.s.accepted, b.boxes[i].fd), RequestsIn(first), RequestsIn(rest));
    }
  }

  /** A stream of written packets that survives its cuts and pauses: over these polls, with
      everything handled in each and whatever other descriptors bring, the bus accepts from that
      descriptor exactly the requests of the stream, in order. */
  lemma StreamIsAccepted(ms: seq<Message>, b: ByteBus, inputs: seq<ByteInput>, i: nat)
    requires Progressive(ReadOne) && forall l | 0 <= l < |ms| :: Good(ms[l])
    requires Runs(ReadOne, b, inputs) && i < |b.boxes|
    requires forall j | 0 <= j < |b.boxes| && j != i :: b.boxes[j].fd != b.boxes[i].fd
    requires b.boxes[i].rx == [] && Chunks(Column(inputs, i)) == Stream(Frames(ms))
    requires Survives(Frames(ms), false, 0, b.boxes[i].tsRecv, Column(inputs, i))
    ensures var fd := b.boxes[i].fd;
            RequestsFrom(ByteRun(ReadOne, b, inputs).s.accepted, fd)
            == RequestsFrom(b.s.accepted, fd) + RequestsIn(Packets(Frames(ms)))
    ensures ByteRun(ReadOne, b, inputs).boxes[i].rx == []
  {
    var t := Taken([], b.boxes[i]);
    StreamComesOutIff(ms, t, Column(inputs, i));
    var news := RunAcceptsFrom(ReadOne, b, inputs, i, t);
    SameNews(t.got, news, Packets(Frames(ms)));
    BoxTurns(ReadOne, b, inputs, i, []);
  }
}
