/** End to end: a service that answers what it was forwarded reaches the request's origin. */
module Correlation {
  import opened Sequences
  import opened Options
  import opened Bytes
  import opened Srrp
  import opened SrrpRoundTrip
  import opened Forwarding
  import opened Destinations
  import opened BusModel
  import opened BusLife
  import opened BusSafety
  import opened BusTheorems
  import Binary
  import Crc16
  import Gf2

  /** crc16 over the header, then crc16_crc over the data, as the service computes it. */
  method ServiceCrc(pac: Packet) returns (crc: nat)
    ensures crc == CorrelationCrc(pac) < 65536
    ensures crc == Binary.Value(Gf2.Remainder(Gf2.Zeros(16), Crc16.Bits(pac.header + pac.data) + Gf2.Zeros(16)))
  {
    var c := Crc16.Crc(pac.header);
    c := Crc16.CrcContinue(c, pac.data);
    crc := Binary.Value(c);
    CrcIs16Bits(pac);
    Crc16.TableCrcConcat(Gf2.Zeros(16), pac.header, pac.data);
    Crc16.TableCrcIsRemainder(Gf2.Zeros(16), pac.header + pac.data);
  }

  lemma CrcIs16Bits(pac: Packet)
    ensures CorrelationCrc(pac) < 65536
  {
    Binary.ValueBound(Crc16.TableCrc(Crc16.TableCrc(Gf2.Zeros(16), pac.header), pac.data));
    assert Binary.Pow2(4) == 16;
    assert Binary.Pow2(8) == 16 * Binary.Pow2(4);
    assert Binary.Pow2(12) == 16 * Binary.Pow2(8);
    assert Binary.Pow2(16) == 16 * Binary.Pow2(12);
  }

  function AnswerKind(pac: Packet): Kind {
    Response(pac.srcid, CorrelationCrc(pac))
  }

  /** An answer written with the parsed source, header and checksum of a request is read back as
      written and passes the three tests against every pending copy of that request. */
  lemma AnswerMatches(r: ApiRequest, data: seq<byte>, rest: seq<byte>)
    requires r.crc16 == CorrelationCrc(r.pac) && CanWrite(AnswerKind(r.pac), r.pac.header, data)
    requires Readable(r.pac.header, data)
    ensures var ans := Write(AnswerKind(r.pac), r.pac.header, data);
            ReadOne(ans.raw + rest) == Read(ans) && Matches(r, ans)
  {
    RoundTrip(AnswerKind(r.pac), r.pac.header, data, rest);
  }

  /** The request pass of a poll in which one response came in. */
  lemma AfterRequests(s: State, before: nat, k: nat, resp: ApiResponse, now: nat)
    requires Sound(s, before) && before <= now
    requires k < |s.requests| && now < s.requests[k].tsSend + 3
    ensures var t, m := HandleRequestsFrom(s.(responses := [resp]), 0, now), FirstExpired(s.requests, now);
            && k < m && t.requests == s.requests[..m] && t.responses == [resp] && s.sent <= t.sent
  {
    var s0 := s.(responses := [resp]);
    ExpiredTail(s, before, now);
    DropTail(s0, 0, FirstExpired(s.requests, now), now);
    RequestsKeepResponses(s0, 0, now);
    SentGrows(s, before, now, s0);
  }

  lemma NotPendingWithout(requests: seq<ApiRequest>, l: nat)
    requires NewestFirst(requests) && l < |requests|
    ensures !Pending(Without(requests, l), requests[l].id)
  {
  }

  /** The response pass on one response. */
  lemma OneResponse(s: State, now: nat)
    requires |s.responses| == 1
    ensures HandleResponses(s, now) == HandleResponse(s, now)
  {
  }

  lemma AcceptOne(s: State, fd: int, pac: Packet, now: nat)
    ensures AcceptArrivals(s, [Arrival(fd, [pac])], now) == Accept(s, fd, pac, now)
  {
    var a := [Arrival(fd, [pac])];
    assert a[1..] == [] && a[0].packets[1..] == [];
    assert AcceptAll(s, fd, [pac], now) == Accept(s, fd, pac, now);
  }

  /** From s to t the last send relays pac to the origin of the newest request it matches, which
      is request k or a later one, and takes that request off the list. */
  ghost predicate Relayed(s: State, t: State, k: nat, pac: Packet)
    requires k < |s.requests|
  {
    var l := FirstMatch(s.requests, pac);
    && l <= k && Matches(s.requests[l], pac) && s.requests[l].id >= s.requests[k].id
    && |t.sent| > |s.sent|
    && t.sent[|t.sent| - 1] == Answer(s.requests[l].id, s.requests[l].fd, pac.raw)
    && !Pending(t.requests, s.requests[l].id)
  }

  lemma RelayedAfter(s: State, requests: seq<ApiRequest>, m: nat, k: nat, resp: ApiResponse, now: nat)
    requires NewestFirst(requests) && k < m <= |requests| && Matches(requests[k], resp.pac)
    requires s.requests == requests[..m] && s.responses == [resp]
    ensures var t, l := HandleResponses(s, now), FirstMatch(requests, resp.pac);
            && l <= k && requests[l].id >= requests[k].id
            && t.sent == s.sent + [Answer(requests[l].id, requests[l].fd, resp.pac.raw)]
            && !Pending(t.requests, requests[l].id)
  {
    OneResponse(s, now);
    SameFirstMatch(requests, m, resp.pac);
    NotPendingWithout(requests[..m], FirstMatch(requests, resp.pac));
  }

  /** One response arrives for a request that is not overdue: the poll ends with its relay to the
      origin of the newest matching request, which is that request or a later one. */
  lemma RelayedByPoll(s: State, before: nat, k: nat, fd: int, pac: Packet, now: nat)
    requires Sound(s, before) && before <= now
    requires k < |s.requests| && now < s.requests[k].tsSend + 3
    requires pac.leader == RESPONSE_LEADER && Matches(s.requests[k], pac)
    ensures Relayed(s, Poll(s, [Arrival(fd, [pac])], now), k, pac)
  {
    var resp := ApiResponse(pac, fd);
    var s0 := s.(responses := [resp]);
    assert AcceptArrivals(s, [Arrival(fd, [pac])], now) == s0 by {
      AcceptOne(s, fd, pac, now);
    }
    var s1 := HandleRequestsFrom(s0, 0, now);
    AfterRequests(s, before, k, resp, now);
    RelayedAfter(s1, s.requests, FirstExpired(s.requests, now), k, resp, now);
    var s2 := HandleResponses(s1, now);
    assert Poll(s, [Arrival(fd, [pac])], now).sent == s2.sent;
    assert Poll(s, [Arrival(fd, [pac])], now).requests == s2.requests;
  }

  lemma SameFirstMatch(requests: seq<ApiRequest>, m: nat, pac: Packet)
    requires FirstMatch(requests, pac) < m <= |requests|
    ensures FirstMatch(requests[..m], pac) == FirstMatch(requests, pac)
  {
    var l := FirstMatch(requests, pac);
    assert requests[..m][l] == requests[l];
    var l' := FirstMatch(requests[..m], pac);
    assert l' <= l;
    assert requests[l'] == requests[..m][l'];
  }

  lemma SentGrows(s: State, before: nat, now: nat, s0: State)
    requires Sound(s, before) && before <= now && s0.requests == s.requests && s0.stations == s.stations
    ensures s0.sent <= HandleRequestsFrom(s0, 0, now).sent
  {
    assert Seated(s0.requests, s0.stations, now);
    HandleRequestsSeated(s0, 0, now);
  }

  lemma PendingIsWellFormed(s: State, now: nat, k: nat, m: seq<byte>)
    requires Sound(s, now) && k < |s.requests| && ReadOne(m) == Read(s.requests[k].pac)
    ensures var r := s.requests[k];
            r.crc16 == CorrelationCrc(r.pac) && Readable(r.pac.header, r.pac.data)
  {
    var r := s.requests[k];
    assert SameRequest(r, s.accepted[r.id]);
    AcceptedShape(m);
  }

  /** What a service sends back for a packet. */
  function AnswerTo(pac: Packet, data: seq<byte>): Packet
    requires CanWrite(AnswerKind(pac), pac.header, data)
  {
    Write(AnswerKind(pac), pac.header, data)
  }

  /** The service reads the packet that the bus read from m out of what was forwarded, whatever
      follows it, exactly when the announced length covers the text and its NUL; its answer is read
      back by the bus and matches the pending request. */
  ghost predicate Understood(r: ApiRequest, ans: Packet, m: seq<byte>) {
    && ((forall rest :: ReadOne(r.pac.raw + rest) == Read(r.pac)) <==> |CString(m)| < r.pac.len <= |m|)
    && (forall rest :: ReadOne(ans.raw + rest) == Read(ans))
    && ans.leader == RESPONSE_LEADER && Matches(r, ans)
  }

  lemma ServiceSide(s: State, before: nat, k: nat, m: seq<byte>, data: seq<byte>)
    requires Sound(s, before) && k < |s.requests|
    requires var r := s.requests[k];
             && ReadOne(m) == Read(r.pac)
             && CanWrite(AnswerKind(r.pac), r.pac.header, data) && data != [] && data[0] == '{'
    ensures Understood(s.requests[k], AnswerTo(s.requests[k].pac, data), m)
  {
    var r := s.requests[k];
    assert r.crc16 == CorrelationCrc(r.pac) && Readable(r.pac.header, r.pac.data) by {
      PendingIsWellFormed(s, before, k, m);
    }
    ForwardedReadsBackIff(m, r.pac);
    forall rest
      ensures ReadOne(AnswerTo(r.pac, data).raw + rest) == Read(AnswerTo(r.pac, data))
    {
      AnswerMatches(r, data, rest);
    }
    AnswerMatches(r, data, []);
  }

  /** When the answer arrives alone in its poll, that poll ends by relaying it to the origin
      descriptor of the request it answers, or of a later request that is indistinguishable from it
      by the three tests. */
  lemma EndToEndAlone(polls: seq<PollInput>, k: nat, m: seq<byte>, data: seq<byte>, fd: int, now: nat)
    requires Monotone(polls) && k < |Run(polls).requests|
    requires var r := Run(polls).requests[k];
             && ReadOne(m) == Read(r.pac)
             && CanWrite(AnswerKind(r.pac), r.pac.header, data) && data != [] && data[0] == '{'
             && LastTime(polls) <= now < r.tsSend + 3
    ensures var s := Run(polls);
            var ans := AnswerTo(s.requests[k].pac, data);
            && Understood(s.requests[k], ans, m)
            && Relayed(s, Poll(s, [Arrival(fd, [ans])], now), k, ans)
  {
    var s := Run(polls);
    var ans := AnswerTo(s.requests[k].pac, data);
    RunSound(polls);
    ServiceSide(s, LastTime(polls), k, m, data);
    RelayedByPoll(s, LastTime(polls), k, fd, ans, now);
  }

  // ---------------------------------------------------------------- among other arrivals

  lemma {:induction false} AcceptAllGrows(s: State, fd: int, pacs: seq<Packet>, now: nat)
    ensures var t := AcceptAll(s, fd, pacs, now);
            && (forall r | r in s.requests :: r in t.requests)
            && (forall r | r in s.responses :: r in t.responses)
            && (forall p | p in pacs && p.leader == RESPONSE_LEADER :: ApiResponse(p, fd) in t.responses)
    decreases |pacs|
  {
    if pacs != [] {
      var a := Accept(s, fd, pacs[0], now);
      AcceptAllGrows(a, fd, pacs[1..], now);
      assert pacs[0].leader == RESPONSE_LEADER ==> ApiResponse(pacs[0], fd) in a.responses;
      assert forall p | p in pacs :: p == pacs[0] || p in pacs[1..];
    }
  }

  /** Accepting loses neither a pending request nor a response that has arrived. */
  lemma {:induction false} AcceptArrivalsGrows(s: State, arrivals: seq<Arrival>, now: nat)
    ensures var t := AcceptArrivals(s, arrivals, now);
            && (forall r | r in s.requests :: r in t.requests)
            && (forall r | r in s.responses :: r in t.responses)
            && (forall a, p | a in arrivals && p in a.packets && p.leader == RESPONSE_LEADER ::
                  ApiResponse(p, a.fd) in t.responses)
    decreases |arrivals|
  {
    if arrivals != [] {
      var a := arrivals[0];
      var u := AcceptAll(s, a.fd, a.packets, now);
      AcceptAllGrows(s, a.fd, a.packets, now);
      AcceptArrivalsGrows(u, arrivals[1..], now);
      assert forall b | b in arrivals :: b == a || b in arrivals[1..];
    }
  }

  lemma KeptByStep(s: State, k: nat, now: nat, r: ApiRequest)
    requires k < |s.requests| && r in s.requests && r.waiting && !Expired(r, now)
    ensures r in HandleRequestAt(s, k, now).requests
  {
    var t := HandleRequestAt(s, k, now);
    if s.requests[k] != r {
      var i :| 0 <= i < |s.requests| && s.requests[i] == r;
      assert t.requests[if |t.requests| == |s.requests| || i < k then i else i - 1] == r;
    }
  }

  /** The request pass keeps every request that is waiting and not overdue. */
  lemma {:induction false} KeptByRequestPass(s: State, k: nat, now: nat, r: ApiRequest)
    requires r in s.requests && r.waiting && !Expired(r, now)
    ensures r in HandleRequestsFrom(s, k, now).requests
    decreases |s.requests| - k
  {
    if k < |s.requests| {
      var t := HandleRequestAt(s, k, now);
      KeptByStep(s, k, now, r);
      KeptByRequestPass(t, if |t.requests| == |s.requests| then k + 1 else k, now, r);
    }
  }

  /** The send relays pac to the origin of a request it matches, or answers the request id. */
  predicate Relays(e: Send, accepted: seq<ApiRequest>, pac: Packet, id: nat) {
    && e.Answer? && e.id < |accepted| && e.fd == accepted[e.id].fd
    && (e.id == id || (e.bytes == pac.raw && Matches(accepted[e.id], pac)))
  }

  ghost predicate RelaysFrom(t: State, from: nat, pac: Packet, id: nat) {
    exists j | from <= j < |t.sent| :: Relays(t.sent[j], t.accepted, pac, id)
  }

  lemma SameMatch(requests: seq<ApiRequest>, accepted: seq<ApiRequest>, sent: seq<Send>, k: nat, pac: Packet)
    requires Life(requests, accepted, sent) && k < |requests|
    ensures var r := requests[k];
            && r.id < |accepted| && r.fd == accepted[r.id].fd
            && (Matches(r, pac) <==> Matches(accepted[r.id], pac))
  {
    assert SameRequest(requests[k], accepted[requests[k].id]);
  }

  /** A response to be handled finds a request it matches, unless the request in question is
      answered by an earlier one. */
  lemma {:induction false} RelayedInPass(s: State, now: nat, r: ApiRequest, resp: ApiResponse)
    requires Life(s.requests, s.accepted, s.sent) && Seated(s.requests, s.stations, now) && AllSettled(s.requests, now)
    requires r in s.requests && Matches(r, resp.pac) && resp in s.responses
    ensures RelaysFrom(HandleResponses(s, now), |s.sent|, resp.pac, r.id)
    decreases |s.responses|
  {
    var t, k := HandleResponse(s, now), FirstMatch(s.requests, s.responses[0].pac);
    var i :| 0 <= i < |s.requests| && s.requests[i] == r;
    if s.responses[0] == resp || k == i {
      RelayedAtOnce(s, now, k, resp.pac, r.id);
    } else {
      HandleResponseLife(s, now);
      HandleResponseSeated(s, now);
      StaysUnmatched(s, now, i, k);
      assert resp in s.responses[1..];
      RelayedInPass(t, now, r, resp);
      RelaysSooner(HandleResponses(t, now), |t.sent|, |s.sent|, resp.pac, r.id);
    }
  }

  lemma RelaysSooner(t: State, from: nat, from': nat, pac: Packet, id: nat)
    requires RelaysFrom(t, from, pac, id) && from' <= from
    ensures RelaysFrom(t, from', pac, id)
  {
  }

  /** A request that the first response does not match stays. */
  lemma StaysUnmatched(s: State, now: nat, i: nat, k: nat)
    requires s.responses != [] && k == FirstMatch(s.requests, s.responses[0].pac) && i < |s.requests| && i != k
    ensures s.requests[i] in HandleResponse(s, now).requests
  {
    if k < |s.requests| {
      assert HandleResponse(s, now).requests[if i < k then i else i - 1] == s.requests[i];
    }
  }

  /** The first response is relayed to the first request that it matches. */
  lemma RelayedAtOnce(s: State, now: nat, k: nat, pac: Packet, id: nat)
    requires Life(s.requests, s.accepted, s.sent) && Seated(s.requests, s.stations, now) && AllSettled(s.requests, now)
    requires s.responses != [] && k == FirstMatch(s.requests, s.responses[0].pac) < |s.requests|
    requires s.responses[0].pac == pac || s.requests[k].id == id
    ensures RelaysFrom(HandleResponses(s, now), |s.sent|, pac, id)
  {
    var t := HandleResponse(s, now);
    HandleResponseSeated(s, now);
    HandleResponsesSeated(t, now);
    SameMatch(s.requests, s.accepted, s.sent, k, pac);
    assert Relays(t.sent[|s.sent|], t.accepted, pac, id);
    assert HandleResponses(s, now).sent[|s.sent|] == t.sent[|s.sent|];
  }

  /** A response that arrives, among whatever else, for a pending request that is not overdue is
      relayed in that poll to the origin of a request it matches, unless another response answers
      that request first. */
  lemma AnsweredByPoll(s: State, before: nat, k: nat, arrivals: seq<Arrival>, a: Arrival, pac: Packet, now: nat)
    requires Sound(s, before) && before <= now
    requires k < |s.requests| && now < s.requests[k].tsSend + 3
    requires a in arrivals && pac in a.packets && pac.leader == RESPONSE_LEADER && Matches(s.requests[k], pac)
    ensures RelaysFrom(Poll(s, arrivals, now), |s.sent|, pac, s.requests[k].id)
  {
    var r := s.requests[k];
    var s0 := AcceptArrivals(s, arrivals, now);
    assert Seated(s.requests, s.stations, now) && Settled(r, before);
    AcceptArrivalsGrows(s, arrivals, now);
    AcceptArrivalsLife(s, arrivals, now);
    AcceptArrivalsSeated(s, arrivals, now);
    var s1 := HandleRequestsFrom(s0, 0, now);
    HandleRequestsLife(s0, 0, now);
    HandleRequestsSeated(s0, 0, now);
    KeptByRequestPass(s0, 0, now, r);
    RequestsKeepResponses(s0, 0, now);
    RelayedInPass(s1, now, r, ApiResponse(pac, a.fd));
    var s2 := HandleResponses(s1, now);
    var j :| |s1.sent| <= j < |s2.sent| && Relays(s2.sent[j], s2.accepted, pac, r.id);
    var t := Poll(s, arrivals, now);
    assert t.sent == s2.sent && t.accepted == s2.accepted;
    assert Relays(t.sent[j], t.accepted, pac, r.id);
  }

  /** A request is forwarded, parsed by a service and answered with the parsed source and header and
      the checksum of the parsed header and data. While it is
      not overdue, the poll in which the answer arrives, whatever else arrives with it, relays the
      answer to the origin descriptor of a request it matches, unless another response answers
      this very request first. */
  lemma EndToEnd(polls: seq<PollInput>, k: nat, m: seq<byte>, data: seq<byte>, arrivals: seq<Arrival>, a: Arrival, now: nat)
    requires Monotone(polls) && k < |Run(polls).requests|
    requires var r := Run(polls).requests[k];
             && ReadOne(m) == Read(r.pac)
             && CanWrite(AnswerKind(r.pac), r.pac.header, data) && data != [] && data[0] == '{'
             && LastTime(polls) <= now < r.tsSend + 3
             && a in arrivals && AnswerTo(r.pac, data) in a.packets
    ensures var s := Run(polls);
            var ans := AnswerTo(s.requests[k].pac, data);
            && Understood(s.requests[k], ans, m)
            && RelaysFrom(Run(polls + [PollInput(arrivals, now)]), |s.sent|, ans, s.requests[k].id)
  {
    var s := Run(polls);
    var ans := AnswerTo(s.requests[k].pac, data);
    RunSound(polls);
    ServiceSide(s, LastTime(polls), k, m, data);
    AnsweredByPoll(s, LastTime(polls), k, arrivals, a, ans, now);
    var more := polls + [PollInput(arrivals, now)];
    assert more[..|polls|] == polls && Run(more) == Poll(s, arrivals, now);
  }

  /** The bus after its first poll, when one request from a station to itself arrives. */
  function SelfRequested(pac: Packet, fd: int, now: nat): State {
    var r := ApiRequest(0, pac, false, now, 0, fd, CorrelationCrc(pac));
    State([r.(waiting := true, tsSend := now)], [], [Station(pac.srcid, now, fd)], [], [Forward(0, fd, pac.raw)], [r])
  }

  /** Requests do become pending: a station's first request, addressed to itself, is forwarded to
      the descriptor it came from and waits for its answer. */
  lemma RequestToSelf(pac: Packet, fd: int, now: nat, rest: seq<byte>)
    requires pac.leader == REQUEST_LEADER && pac.srcid < 65536
    requires pac.header == Naming(pac.srcid, rest) && (rest == [] || !IsDigit(rest[0]))
    ensures Run([PollInput([Arrival(fd, [pac])], now)]) == SelfRequested(pac, fd, now)
  {
    var polls := [PollInput([Arrival(fd, [pac])], now)];
    assert polls[..0] == [];
    assert Destination(pac.header) == Some(pac.srcid) by {
      PlainDestination(pac.srcid, rest);
    }
    AcceptOne(EMPTY, fd, pac, now);
    var s0 := Accept(EMPTY, fd, pac, now);
    var s1 := HandleRequestAt(s0, 0, now);
    assert s1 == SelfRequested(pac, fd, now) by {
      var seen := SeeSource([], s0.requests[0], now);
      assert seen == [Station(pac.srcid, now, fd)] && Target(seen, pac.header) == 0;
    }
    assert HandleRequestsFrom(s0, 0, now) == HandleRequestsFrom(s1, 1, now) == s1;
    assert ClearUnalive(s1.stations, now) == s1.stations by {
      assert s1.stations[1..] == [];
    }
  }
}
