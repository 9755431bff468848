/** The bus from bytes to sends, over runs of polls: what the descriptors' unread bytes and the bus's
    lists go through together, and the end-to-end argument for an answer that arrives in pieces. */
module ByteRuns {
  import opened Sequences
  import opened Bytes
  import opened Srrp
  import opened SrrpRoundTrip
  import opened Framing
  import opened BusModel
  import opened BusLife
  import opened BusSafety
  import opened BusTheorems
  import opened Inboxes
  import opened TimedFraming
  import opened Correlation

  datatype ByteBus = ByteBus(s: State, boxes: seq<Inbox>)

  /** One poll: what has arrived at each descriptor, and the clock. */
  datatype ByteInput = ByteInput(chunks: seq<seq<byte>>, now: nat)

  predicate Fits(boxes: seq<Inbox>, inputs: seq<ByteInput>) {
    forall k | 0 <= k < |inputs| :: |inputs[k].chunks| == |boxes|
  }

  function Parcels(read: Reader, boxes: seq<Inbox>, i: ByteInput): (a: seq<Arrival>)
    requires Progressive(read)
    requires |i.chunks| == |boxes|
    ensures |a| == |boxes|
  {
    Arrivals(read, ReceivedAll(boxes, i.chunks, i.now), i.now)
  }

  /** A poll whose bytes leave the reader inside its arrays, one chunk for each descriptor. */
  ghost predicate Defined(read: Reader, b: ByteBus, i: ByteInput)
    requires Progressive(read)
  {
    |i.chunks| == |b.boxes| && !AnyOverrun(read, ReceivedAll(b.boxes, i.chunks, i.now), i.now)
  }

  function BytePoll(read: Reader, b: ByteBus, i: ByteInput): (b': ByteBus)
    requires Progressive(read)
    requires Defined(read, b, i)
    ensures |b'.boxes| == |b.boxes|
  {
    ByteBus(Poll(b.s, Parcels(read, b.boxes, i), i.now), LeftAll(read, ReceivedAll(b.boxes, i.chunks, i.now), i.now))
  }

  /** A run in which no poll leads the reader out of its arrays. */
  ghost predicate Runs(read: Reader, b: ByteBus, inputs: seq<ByteInput>)
    requires Progressive(read)
    decreases |inputs|
  {
    && Fits(b.boxes, inputs)
    && (inputs != [] ==> Defined(read, b, inputs[0]) && Runs(read, BytePoll(read, b, inputs[0]), inputs[1..]))
  }

  function ByteRun(read: Reader, b: ByteBus, inputs: seq<ByteInput>): (b': ByteBus)
    requires Progressive(read)
    requires Runs(read, b, inputs)
    ensures |b'.boxes| == |b.boxes|
    decreases |inputs|
  {
    if inputs == [] then b else ByteRun(read, BytePoll(read, b, inputs[0]), inputs[1..])
  }

  /** One more poll at the end. */
  lemma {:induction false} RunAppend(read: Reader, b: ByteBus, inputs: seq<ByteInput>, last: ByteInput)
    requires Progressive(read)
    requires Runs(read, b, inputs) && Defined(read, ByteRun(read, b, inputs), last)
    ensures Runs(read, b, inputs + [last])
    ensures ByteRun(read, b, inputs + [last]) == BytePoll(read, ByteRun(read, b, inputs), last)
    decreases |inputs|
  {
    var more := inputs + [last];
    if inputs == [] {
      assert more == [last] && more[1..] == [];
      assert Runs(read, BytePoll(read, b, last), []);
    } else {
      assert more[0] == inputs[0] && more[1..] == inputs[1..] + [last];
      RunAppend(read, BytePoll(read, b, inputs[0]), inputs[1..], last);
    }
  }

  /** A bus without requests, and empty buffers. */
  function Fresh(fds: seq<int>): (b: ByteBus)
    ensures |b.boxes| == |fds| && forall i | 0 <= i < |fds| :: b.boxes[i] == Inbox(fds[i], [], 0)
  {
    ByteBus(EMPTY, seq(|fds|, i requires 0 <= i < |fds| => Inbox(fds[i], [], 0)))
  }

  // ---------------------------------------------------------------- runs of bytes are runs

  /** The packets that the bytes of a run amount to, poll by poll. */
  function PollsOf(read: Reader, b: ByteBus, inputs: seq<ByteInput>): (polls: seq<PollInput>)
    requires Progressive(read)
    requires Runs(read, b, inputs)
    ensures |polls| == |inputs| && forall k | 0 <= k < |inputs| :: polls[k].now == inputs[k].now
    decreases |inputs|
  {
    if inputs == [] then []
    else [PollInput(Parcels(read, b.boxes, inputs[0]), inputs[0].now)] + PollsOf(read, BytePoll(read, b, inputs[0]), inputs[1..])
  }

  lemma RunMore(read: Reader, polls: seq<PollInput>, b: ByteBus, input: ByteInput, more: seq<PollInput>)
    requires Progressive(read)
    requires Defined(read, b, input) && b.s == Run(polls)
    requires more == polls + [PollInput(Parcels(read, b.boxes, input), input.now)]
    ensures BytePoll(read, b, input).s == Run(more)
  {
    assert more[..|polls|] == polls;
  }

  /** Every run of bytes is a run of polls, so that all theorems about runs hold for it. */
  lemma {:induction false} ByteRunIsRun(read: Reader, polls: seq<PollInput>, b: ByteBus, inputs: seq<ByteInput>, all: seq<PollInput>)
    requires Progressive(read)
    requires Runs(read, b, inputs) && b.s == Run(polls) && all == polls + PollsOf(read, b, inputs)
    ensures ByteRun(read, b, inputs).s == Run(all)
    decreases |inputs|
  {
    if inputs == [] {
      assert polls + [] == polls;
    } else {
      var b' := BytePoll(read, b, inputs[0]);
      var more := polls + [PollInput(Parcels(read, b.boxes, inputs[0]), inputs[0].now)];
      RunMore(read, polls, b, inputs[0], more);
      assert all == more + PollsOf(read, b', inputs[1..]) by {
        Regroup(polls, [PollInput(Parcels(read, b.boxes, inputs[0]), inputs[0].now)], PollsOf(read, b', inputs[1..]));
      }
      ByteRunIsRun(read, more, b', inputs[1..], all);
    }
  }

  /** A clock that does not go back. */
  predicate Rising(before: nat, inputs: seq<ByteInput>)
    decreases |inputs|
  {
    inputs != [] ==> before <= inputs[0].now && Rising(inputs[0].now, inputs[1..])
  }

  function LastClock(before: nat, inputs: seq<ByteInput>): nat {
    if inputs == [] then before else inputs[|inputs| - 1].now
  }

  /** The polls of a run whose clock does not go back are in order. */
  lemma {:induction false} RisingIsMonotone(before: nat, inputs: seq<ByteInput>, polls: seq<PollInput>)
    requires Rising(before, inputs) && |polls| == |inputs| && forall k | 0 <= k < |inputs| :: polls[k].now == inputs[k].now
    ensures Monotone(polls) && forall k | 0 <= k < |polls| :: before <= polls[k].now
    decreases |inputs|
  {
    if inputs != [] {
      RisingIsMonotone(inputs[0].now, inputs[1..], polls[1..]);
      assert forall k | 1 <= k < |polls| :: polls[k] == polls[1..][k - 1];
    }
  }

  /** From empty buffers, a run of bytes ends as the run of the packets parsed from them. */
  lemma FreshRunIsRun(read: Reader, fds: seq<int>, inputs: seq<ByteInput>) returns (polls: seq<PollInput>)
    requires Progressive(read)
    requires Runs(read, Fresh(fds), inputs) && Rising(0, inputs)
    ensures polls == PollsOf(read, Fresh(fds), inputs) && Monotone(polls) && LastTime(polls) == LastClock(0, inputs)
    ensures ByteRun(read, Fresh(fds), inputs).s == Run(polls)
  {
    polls := PollsOf(read, Fresh(fds), inputs);
    RisingIsMonotone(0, inputs, polls);
    assert [] + polls == polls;
    ByteRunIsRun(read, [], Fresh(fds), inputs, polls);
  }

  /** Over every run of bytes, accepted requests = pending + answered + timed out + not found. */
  lemma BytesConserve(read: Reader, fds: seq<int>, inputs: seq<ByteInput>)
    requires Progressive(read)
    requires Runs(read, Fresh(fds), inputs) && Rising(0, inputs)
    ensures var s := ByteRun(read, Fresh(fds), inputs).s;
            |s.accepted| == |s.requests| + Answers(s.sent) + Timeouts(s.sent) + Misses(s.sent)
  {
    var polls := FreshRunIsRun(read, fds, inputs);
    Conservation(polls);
  }

  lemma {:induction false} ByteRunSound(read: Reader, b: ByteBus, before: nat, inputs: seq<ByteInput>)
    requires Progressive(read)
    requires Runs(read, b, inputs) && Rising(before, inputs) && Sound(b.s, before)
    ensures Sound(ByteRun(read, b, inputs).s, LastClock(before, inputs))
    ensures b.s.sent <= ByteRun(read, b, inputs).s.sent && b.s.accepted <= ByteRun(read, b, inputs).s.accepted
    decreases |inputs|
  {
    if inputs != [] {
      PollKeeps(b.s, before, Parcels(read, b.boxes, inputs[0]), inputs[0].now);
      ByteRunSound(read, BytePoll(read, b, inputs[0]), inputs[0].now, inputs[1..]);
    }
  }

  // ---------------------------------------------------------------- one descriptor

  /** What arrives at one descriptor. */
  function Column(inputs: seq<ByteInput>, i: nat): (ds: seq<Delivery>)
    requires forall k | 0 <= k < |inputs| :: i < |inputs[k].chunks|
    ensures |ds| == |inputs| && forall k | 0 <= k < |inputs| :: ds[k] == Delivery(inputs[k].chunks[i], inputs[k].now)
  {
    seq(|inputs|, k requires 0 <= k < |inputs| => Delivery(inputs[k].chunks[i], inputs[k].now))
  }

  /** The descriptor's part of a poll is its turn. */
  lemma BoxTurn(read: Reader, b: ByteBus, input: ByteInput, i: nat, got: seq<Packet>)
    requires Progressive(read)
    requires Defined(read, b, input) && i < |b.boxes|
    ensures var t' := TakeTurn(read, Taken(got, b.boxes[i]), Delivery(input.chunks[i], input.now));
            && BytePoll(read, b, input).boxes[i] == t'.box
            && Parcels(read, b.boxes, input)[i].fd == b.boxes[i].fd
            && t'.got == got + Parcels(read, b.boxes, input)[i].packets
  {
  }

  /** Over a run, what comes out of a descriptor and what is left in it is what its turns say. */
  lemma {:induction false} BoxTurns(read: Reader, b: ByteBus, inputs: seq<ByteInput>, i: nat, got: seq<Packet>)
    requires Progressive(read)
    requires Runs(read, b, inputs) && i < |b.boxes|
    ensures ByteRun(read, b, inputs).boxes[i] == TakeTurns(read, Taken(got, b.boxes[i]), Column(inputs, i)).box
    decreases |inputs|
  {
    if inputs != [] {
      BoxTurn(read, b, inputs[0], i, got);
      var t' := TakeTurn(read, Taken(got, b.boxes[i]), Delivery(inputs[0].chunks[i], inputs[0].now));
      assert Column(inputs, i)[1..] == Column(inputs[1..], i);
      BoxTurns(read, BytePoll(read, b, inputs[0]), inputs[1..], i, t'.got);
    }
  }

  // ---------------------------------------------------------------- a request until it is answered

  lemma RelaysLater(t: State, u: State, from: nat, from': nat, pac: Packet, id: nat)
    requires RelaysFrom(t, from, pac, id) && t.sent <= u.sent && t.accepted <= u.accepted && from' <= from
    ensures RelaysFrom(u, from', pac, id)
  {
    var j :| from <= j < |t.sent| && Relays(t.sent[j], t.accepted, pac, id);
    assert Relays(u.sent[j], u.accepted, pac, id);
  }

  lemma {:induction false} KeptOrAnsweredInPass(s: State, now: nat, r: ApiRequest, pac: Packet)
    requires Life(s.requests, s.accepted, s.sent) && Seated(s.requests, s.stations, now) && AllSettled(s.requests, now)
    requires r in s.requests
    ensures var t := HandleResponses(s, now); r in t.requests || RelaysFrom(t, |s.sent|, pac, r.id)
    decreases |s.responses|
  {
    if s.responses != [] {
      var t, k := HandleResponse(s, now), FirstMatch(s.requests, s.responses[0].pac);
      var i :| 0 <= i < |s.requests| && s.requests[i] == r;
      if k == i {
        RelayedAtOnce(s, now, k, pac, r.id);
      } else {
        HandleResponseLife(s, now);
        HandleResponseSeated(s, now);
        StaysUnmatched(s, now, i, k);
        KeptOrAnsweredInPass(t, now, r, pac);
        if RelaysFrom(HandleResponses(t, now), |t.sent|, pac, r.id) {
          RelaysSooner(HandleResponses(t, now), |t.sent|, |s.sent|, pac, r.id);
        }
      }
    }
  }

  /** A pending request that is not overdue is still pending after a poll, or was answered in it. */
  lemma KeptOrAnswered(s: State, before: nat, r: ApiRequest, arrivals: seq<Arrival>, now: nat, pac: Packet)
    requires Sound(s, before) && before <= now && r in s.requests && now < r.tsSend + 3
    ensures var t := Poll(s, arrivals, now); r in t.requests || RelaysFrom(t, |s.sent|, pac, r.id)
  {
    var s0 := AcceptArrivals(s, arrivals, now);
    assert Seated(s.requests, s.stations, now);
    var k :| 0 <= k < |s.requests| && s.requests[k] == r;
    assert Settled(s.requests[k], before);
    AcceptArrivalsGrows(s, arrivals, now);
    AcceptArrivalsLife(s, arrivals, now);
    AcceptArrivalsSeated(s, arrivals, now);
    var s1 := HandleRequestsFrom(s0, 0, now);
    HandleRequestsLife(s0, 0, now);
    HandleRequestsSeated(s0, 0, now);
    KeptByRequestPass(s0, 0, now, r);
    KeptOrAnsweredInPass(s1, now, r, pac);
    HandledAlike(s, s1, HandleResponses(s1, now), Poll(s, arrivals, now), r, pac);
  }

  /** What the poll does after the responses changes neither requests nor sends. */
  lemma HandledAlike(s: State, s1: State, s2: State, t: State, r: ApiRequest, pac: Packet)
    requires s.sent <= s1.sent && t.requests == s2.requests && t.sent == s2.sent && t.accepted == s2.accepted
    requires r in s2.requests || RelaysFrom(s2, |s1.sent|, pac, r.id)
    ensures r in t.requests || RelaysFrom(t, |s.sent|, pac, r.id)
  {
    if RelaysFrom(s2, |s1.sent|, pac, r.id) {
      RelaysLater(s2, t, |s1.sent|, |s.sent|, pac, r.id);
    }
  }

  // ---------------------------------------------------------------- an answer in pieces

  /** The poll in which a response comes out at descriptor i: if a request it matches is pending and
      not overdue, the response is relayed to the origin of a request it matches, unless another
      response answers that request first. */
  lemma RelayedWhenOut(read: Reader, b: ByteBus, before: nat, r: ApiRequest, i: nat, input: ByteInput, pac: Packet)
    requires Progressive(read) && Defined(read, b, input) && i < |b.boxes| && pac in Parcels(read, b.boxes, input)[i].packets
    requires Sound(b.s, before) && r in b.s.requests && before <= input.now < r.tsSend + 3
    requires pac.leader == RESPONSE_LEADER && Matches(r, pac)
    ensures RelaysFrom(BytePoll(read, b, input).s, |b.s.sent|, pac, r.id)
  {
    var k :| 0 <= k < |b.s.requests| && b.s.requests[k] == r;
    var arrivals := Parcels(read, b.boxes, input);
    AnsweredByPoll(b.s, before, k, arrivals, arrivals[i], pac, input.now);
  }

  /** The packet of a frame on its way to descriptor i comes out in the next poll, or is still on its
      way after it. */
  lemma NextPoll(read: Reader, b: ByteBus, i: nat, inputs: seq<ByteInput>, fs: seq<Frame>, n: nat)
    returns (fs': seq<Frame>, n': nat)
    requires Progressive(read) && Runs(read, b, inputs) && i < |b.boxes|
    requires n < |fs| && Underway(read, b.boxes[i], fs, n, Column(inputs, i))
    ensures inputs != []
    ensures || fs[n].pac in Parcels(read, b.boxes, inputs[0])[i].packets
            || (n' < |fs'| && fs'[n'] == fs[n]
                && Underway(read, BytePoll(read, b, inputs[0]).boxes[i], fs', n', Column(inputs[1..], i)))
  {
    var ds := Column(inputs, i);
    fs', n' := NextTurn(read, b.boxes[i], fs, n, ds);
    ColumnTail(inputs, i, ds);
    BoxPoll(read, b, inputs[0], i, ds[0]);
  }

  lemma ColumnTail(inputs: seq<ByteInput>, i: nat, ds: seq<Delivery>)
    requires inputs != [] && (forall k | 0 <= k < |inputs| :: i < |inputs[k].chunks|) && ds == Column(inputs, i)
    ensures ds[0] == Delivery(inputs[0].chunks[i], inputs[0].now) && ds[1..] == Column(inputs[1..], i)
  {
  }

  lemma BoxPoll(read: Reader, b: ByteBus, input: ByteInput, i: nat, d: Delivery)
    requires Progressive(read) && Defined(read, b, input) && i < |b.boxes| && d == Delivery(input.chunks[i], input.now)
    ensures var full := Received(b.boxes[i], d.chunk, d.now);
            && Parcels(read, b.boxes, input)[i].packets == ParsedBox(read, full, d.now).packets
            && BytePoll(read, b, input).boxes[i] == LeftBox(read, full, d.now)
  {
  }

  lemma {:induction false} Clock(before: nat, inputs: seq<ByteInput>)
    requires Rising(before, inputs) && inputs != []
    ensures before <= inputs[0].now <= LastClock(before, inputs)
    decreases |inputs|
  {
    if |inputs| > 1 {
      Clock(inputs[0].now, inputs[1..]);
    }
  }

  /** The first of several polls: the request stays or is answered. */
  lemma FirstPoll(read: Reader, b: ByteBus, before: nat, r: ApiRequest, inputs: seq<ByteInput>, pac: Packet, b': ByteBus)
    requires Progressive(read) && Runs(read, b, inputs) && inputs != [] && b' == BytePoll(read, b, inputs[0])
    requires Sound(b.s, before) && Rising(before, inputs) && r in b.s.requests && LastClock(before, inputs) < r.tsSend + 3
    ensures Sound(b'.s, inputs[0].now) && b.s.sent <= b'.s.sent
    ensures before <= inputs[0].now < r.tsSend + 3
    ensures Rising(inputs[0].now, inputs[1..]) && LastClock(inputs[0].now, inputs[1..]) == LastClock(before, inputs)
    ensures r in b'.s.requests || RelaysFrom(b'.s, |b.s.sent|, pac, r.id)
    ensures ByteRun(read, b, inputs) == ByteRun(read, b', inputs[1..])
    ensures b'.s.sent <= ByteRun(read, b', inputs[1..]).s.sent && b'.s.accepted <= ByteRun(read, b', inputs[1..]).s.accepted
  {
    Clock(before, inputs);
    KeptOrAnswered(b.s, before, r, Parcels(read, b.boxes, inputs[0]), inputs[0].now, pac);
    PollKeeps(b.s, before, Parcels(read, b.boxes, inputs[0]), inputs[0].now);
    ByteRunSound(read, b', inputs[0].now, inputs[1..]);
  }

  /** A response that is on its way to one descriptor, in any pieces and between any other packets
      of its stream, for a pending request that is not overdue at the last of these polls: whatever
      else arrives, it is relayed to the origin of a request it matches, unless another response
      answers that request first. */
  lemma {:induction false} PiecesRelayed(read: Reader, b: ByteBus, before: nat, r: ApiRequest, i: nat, inputs: seq<ByteInput>,
                                         fs: seq<Frame>, n: nat)
    requires Progressive(read) && Runs(read, b, inputs) && i < |b.boxes|
    requires n < |fs| && Underway(read, b.boxes[i], fs, n, Column(inputs, i))
    requires Sound(b.s, before) && Rising(before, inputs) && r in b.s.requests && LastClock(before, inputs) < r.tsSend + 3
    requires fs[n].pac.leader == RESPONSE_LEADER && Matches(r, fs[n].pac)
    ensures RelaysFrom(ByteRun(read, b, inputs).s, |b.s.sent|, fs[n].pac, r.id)
    decreases |inputs|
  {
    var pac := fs[n].pac;
    var fs', n' := NextPoll(read, b, i, inputs, fs, n);
    var b', rest := BytePoll(read, b, inputs[0]), inputs[1..];
    FirstPoll(read, b, before, r, inputs, pac, b');
    if pac in Parcels(read, b.boxes, inputs[0])[i].packets {
      RelayedWhenOut(read, b, before, r, i, inputs[0], pac);
      RelaysLater(b'.s, ByteRun(read, b, inputs).s, |b.s.sent|, |b.s.sent|, pac, r.id);
    } else if r in b'.s.requests {
      PiecesRelayed(read, b', inputs[0].now, r, i, rest, fs', n');
      RelaysLater(ByteRun(read, b', rest).s, ByteRun(read, b, inputs).s, |b'.s.sent|, |b.s.sent|, pac, r.id);
    } else {
      RelaysLater(b'.s, ByteRun(read, b, inputs).s, |b.s.sent|, |b.s.sent|, pac, r.id);
    }
  }

  // ---------------------------------------------------------------- end to end

  ghost predicate WasRead(read: Reader, p: Packet) {
    exists m :: read(m) == ReadResult.Read(p)
  }

  ghost predicate AllRead(read: Reader, accepted: seq<ApiRequest>) {
    forall k | 0 <= k < |accepted| :: WasRead(read, accepted[k].pac)
  }

  lemma {:induction false} ExtractedWereRead(read: Reader, rx: seq<byte>)
    requires Progressive(read)
    ensures forall p | p in Extract(read, rx).packets :: WasRead(read, p)
    decreases |rx|
  {
    if rx != [] && read(rx + [NUL]).Read? {
      var pac := read(rx + [NUL]).pac;
      ExtractedWereRead(read, Advance(rx, pac.len));
      assert WasRead(read, pac);
    }
  }

  lemma {:induction false} AcceptAllRead(read: Reader, s: State, fd: int, pacs: seq<Packet>, now: nat)
    requires AllRead(read, s.accepted) && forall p | p in pacs :: WasRead(read, p)
    ensures AllRead(read, AcceptAll(s, fd, pacs, now).accepted)
    decreases |pacs|
  {
    if pacs != [] {
      assert pacs[0] in pacs;
      AcceptAllRead(read, Accept(s, fd, pacs[0], now), fd, pacs[1..], now);
    }
  }

  lemma {:induction false} AcceptArrivalsRead(read: Reader, s: State, arrivals: seq<Arrival>, now: nat)
    requires AllRead(read, s.accepted) && forall a | a in arrivals :: forall p | p in a.packets :: WasRead(read, p)
    ensures AllRead(read, AcceptArrivals(s, arrivals, now).accepted)
    decreases |arrivals|
  {
    if arrivals != [] {
      var a := arrivals[0];
      assert a in arrivals;
      AcceptAllRead(read, s, a.fd, a.packets, now);
      AcceptArrivalsRead(read, AcceptAll(s, a.fd, a.packets, now), arrivals[1..], now);
    }
  }

  lemma ParcelsWereRead(read: Reader, boxes: seq<Inbox>, input: ByteInput)
    requires Progressive(read) && |input.chunks| == |boxes|
    ensures forall a | a in Parcels(read, boxes, input) :: forall p | p in a.packets :: WasRead(read, p)
  {
    var full := ReceivedAll(boxes, input.chunks, input.now);
    forall a | a in Parcels(read, boxes, input)
      ensures forall p | p in a.packets :: WasRead(read, p)
    {
      var k :| 0 <= k < |full| && Parcels(read, boxes, input)[k] == a;
      ExtractedWereRead(read, full[k].rx);
    }
  }

  /** Handling accepts nothing. */
  lemma HandleAccepted(s: State, before: nat, arrivals: seq<Arrival>, now: nat)
    requires Sound(s, before) && before <= now
    ensures Poll(s, arrivals, now).accepted == AcceptArrivals(s, arrivals, now).accepted
  {
    var s0 := AcceptArrivals(s, arrivals, now);
    assert Seated(s.requests, s.stations, now);
    AcceptArrivalsSeated(s, arrivals, now);
    HandleRequestsSeated(s0, 0, now);
    HandleResponsesSeated(HandleRequestsFrom(s0, 0, now), now);
  }

  /** Every request the bus ever accepted was read from bytes. */
  lemma {:induction false} RequestsWereRead(read: Reader, b: ByteBus, before: nat, inputs: seq<ByteInput>)
    requires Progressive(read) && Runs(read, b, inputs) && Rising(before, inputs) && Sound(b.s, before) && AllRead(read, b.s.accepted)
    ensures AllRead(read, ByteRun(read, b, inputs).s.accepted)
    decreases |inputs|
  {
    if inputs != [] {
      var a, now := Parcels(read, b.boxes, inputs[0]), inputs[0].now;
      ParcelsWereRead(read, b.boxes, inputs[0]);
      AcceptArrivalsRead(read, b.s, a, now);
      HandleAccepted(b.s, before, a, now);
      PollKeeps(b.s, before, a, now);
      RequestsWereRead(read, BytePoll(read, b, inputs[0]), now, inputs[1..]);
    }
  }

  /** A service's answer, as it goes over the wire. */
  function AnswerFrame(pac: Packet, data: seq<byte>): Frame
    requires CanWrite(AnswerKind(pac), pac.header, data)
  {
    Frame(AnswerTo(pac, data).raw, AnswerTo(pac, data))
  }

  lemma AnswerIsGood(pac: Packet, data: seq<byte>, m: seq<byte>)
    requires ReadOne(m) == Read(pac) && CanWrite(AnswerKind(pac), pac.header, data) && data != [] && data[0] == '{'
    ensures var msg := Message(AnswerKind(pac), pac.header, data); Good(msg) && FrameOf(msg) == AnswerFrame(pac, data)
  {
    AcceptedShape(m);
  }

  /** An answer in a stream of written packets. */
  function Around(front: seq<Message>, pac: Packet, data: seq<byte>, behind: seq<Message>): (fs: seq<Frame>)
    requires CanWrite(AnswerKind(pac), pac.header, data)
    requires (forall l | 0 <= l < |front| :: Good(front[l])) && (forall l | 0 <= l < |behind| :: Good(behind[l]))
    ensures |front| < |fs| && fs[|front|] == AnswerFrame(pac, data)
  {
    Frames(front) + [AnswerFrame(pac, data)] + Frames(behind)
  }

  lemma AroundReads(front: seq<Message>, pac: Packet, data: seq<byte>, behind: seq<Message>, m: seq<byte>)
    requires ReadOne(m) == Read(pac) && CanWrite(AnswerKind(pac), pac.header, data) && data != [] && data[0] == '{'
    requires (forall l | 0 <= l < |front| :: Good(front[l])) && (forall l | 0 <= l < |behind| :: Good(behind[l]))
    ensures Reads(ReadOne, Around(front, pac, data, behind))
  {
    AnswerIsGood(pac, data, m);
    var msg := Message(AnswerKind(pac), pac.header, data);
    AllGood(front, msg, behind);
    WrittenReads(front + [msg] + behind);
  }

  lemma AllGood(front: seq<Message>, msg: Message, behind: seq<Message>)
    requires (forall l | 0 <= l < |front| :: Good(front[l])) && Good(msg) && (forall l | 0 <= l < |behind| :: Good(behind[l]))
    ensures var ms := front + [msg] + behind;
            (forall l | 0 <= l < |ms| :: Good(ms[l])) && Frames(ms) == Frames(front) + [FrameOf(msg)] + Frames(behind)
  {
  }

  /** The stream the answer is in comes to the descriptor, from any place in it on, and the answer
      comes out in these polls. */
  ghost predicate AnswerComes(box: Inbox, pac: Packet, data: seq<byte>, front: seq<Message>, behind: seq<Message>, ds: seq<Delivery>)
    requires CanWrite(AnswerKind(pac), pac.header, data)
    requires (forall l | 0 <= l < |front| :: Good(front[l])) && (forall l | 0 <= l < |behind| :: Good(behind[l]))
  {
    var fs := Around(front, pac, data, behind);
    exists stray, p: nat, later ::
      At(box.rx, fs, stray, p, Chunks(ds) + later) && Comes(fs, stray, p, box.tsRecv, ds, |front|)
  }

  /** An answer that comes alone into an empty buffer comes out, in any pieces, once all of its
      bytes but the NUL are there, unless some poll is late. */
  lemma AloneComes(box: Inbox, pac: Packet, data: seq<byte>, ds: seq<Delivery>)
    requires CanWrite(AnswerKind(pac), pac.header, data)
    requires var wire := AnswerTo(pac, data).raw;
             box.rx == [] && Chunks(ds) <= wire && |Chunks(ds)| + 1 >= |wire| && NeverLate(box.tsRecv, ds)
    ensures AnswerComes(box, pac, data, [], [], ds)
  {
    var fs, wire := Around([], pac, data, []), AnswerTo(pac, data).raw;
    assert fs == [AnswerFrame(pac, data)];
    assert Stream(fs) == wire && Due(fs, false) == wire by {
      assert fs[1..] == [];
    }
    var later := wire[|Chunks(ds)|..];
    assert At([], fs, false, 0, Chunks(ds) + later);
    FirstComesIff(fs, 0, box.tsRecv, ds);
  }

  /** From the bytes of the requests to the relay of the answer: after any run of polls, a pending
      request is answered by the service; the answer's bytes arrive at some descriptor in a stream
      of written packets, in any pieces over several polls, whatever arrives elsewhere. If the
      answer comes out of that stream, which its cuts and pauses decide, and the request is not
      overdue by then, the answer is relayed to the origin of a request it matches, unless another
      response answers this request first. */
  lemma EndToEndBytes(fds: seq<int>, past: seq<ByteInput>, k: nat, data: seq<byte>, i: nat, inputs: seq<ByteInput>,
                      front: seq<Message>, behind: seq<Message>)
    requires Progressive(ReadOne) && Runs(ReadOne, Fresh(fds), past) && Rising(0, past)
    requires Runs(ReadOne, ByteRun(ReadOne, Fresh(fds), past), inputs) && Rising(LastClock(0, past), inputs) && i < |fds|
    requires (forall l | 0 <= l < |front| :: Good(front[l])) && (forall l | 0 <= l < |behind| :: Good(behind[l]))
    requires var b := ByteRun(ReadOne, Fresh(fds), past);
             && k < |b.s.requests| && LastClock(LastClock(0, past), inputs) < b.s.requests[k].tsSend + 3
             && var pac := b.s.requests[k].pac;
             && CanWrite(AnswerKind(pac), pac.header, data) && data != [] && data[0] == '{'
             && AnswerComes(b.boxes[i], pac, data, front, behind, Column(inputs, i))
    ensures var b := ByteRun(ReadOne, Fresh(fds), past);
            RelaysFrom(ByteRun(ReadOne, b, inputs).s, |b.s.sent|, AnswerTo(b.s.requests[k].pac, data), b.s.requests[k].id)
  {
    var b, now := ByteRun(ReadOne, Fresh(fds), past), LastClock(0, past);
    var m := PendingWasRead(fds, past, k);
    var r := b.s.requests[k];
    AnswerOnItsWay(b, now, k, m, data, i, Column(inputs, i), front, behind);
    PiecesRelayed(ReadOne, b, now, r, i, inputs, Around(front, r.pac, data, behind), |front|);
  }

  lemma PendingWasRead(fds: seq<int>, past: seq<ByteInput>, k: nat) returns (m: seq<byte>)
    requires Progressive(ReadOne) && Runs(ReadOne, Fresh(fds), past) && Rising(0, past)
    requires k < |ByteRun(ReadOne, Fresh(fds), past).s.requests|
    ensures var b := ByteRun(ReadOne, Fresh(fds), past);
            Sound(b.s, LastClock(0, past)) && ReadOne(m) == Read(b.s.requests[k].pac)
  {
    var b := ByteRun(ReadOne, Fresh(fds), past);
    var r := b.s.requests[k];
    RunSound([]);
    ByteRunSound(ReadOne, Fresh(fds), 0, past);
    RequestsWereRead(ReadOne, Fresh(fds), 0, past);
    assert SameRequest(r, b.s.accepted[r.id]);
    assert WasRead(ReadOne, b.s.accepted[r.id].pac);
    m :| ReadOne(m) == Read(r.pac);
  }

  lemma AnswerOnItsWay(b: ByteBus, now: nat, k: nat, m: seq<byte>, data: seq<byte>, i: nat, ds: seq<Delivery>,
                       front: seq<Message>, behind: seq<Message>)
    requires Sound(b.s, now) && k < |b.s.requests| && i < |b.boxes|
    requires (forall l | 0 <= l < |front| :: Good(front[l])) && (forall l | 0 <= l < |behind| :: Good(behind[l]))
    requires var pac := b.s.requests[k].pac;
             && ReadOne(m) == Read(pac) && CanWrite(AnswerKind(pac), pac.header, data) && data != [] && data[0] == '{'
             && AnswerComes(b.boxes[i], pac, data, front, behind, ds)
    ensures var r := b.s.requests[k];
            && Underway(ReadOne, b.boxes[i], Around(front, r.pac, data, behind), |front|, ds)
            && AnswerTo(r.pac, data).leader == RESPONSE_LEADER && Matches(r, AnswerTo(r.pac, data))
  {
    var r := b.s.requests[k];
    PendingIsWellFormed(b.s, now, k, m);
    AnswerMatches(r, data, []);
    AroundReads(front, r.pac, data, behind, m);
    var fs := Around(front, r.pac, data, behind);
    var stray, p: nat, later :| At(b.boxes[i].rx, fs, stray, p, Chunks(ds) + later) && Comes(fs, stray, p, b.boxes[i].tsRecv, ds, |front|);
    assert OnItsWay(ReadOne, b.boxes[i], fs, |front|, ds, stray, p, later);
  }
}
