/** What the bus sends, told over every run: an answer is a response that arrived and carries the
    request's own header, source and checksum; a forwarding goes where the header says; what is
    overdue is timed out before anything else can happen to it. */
module Traffic {
  import opened Options
  import opened Srrp
  import opened BusModel
  import opened BusLife
  import opened BusSafety
  import opened BusTheorems

  // ---------------------------------------------------------------- answers

  /** The send relays this response to the origin of a request with the same source, the same header
      and the checksum that the response carries. */
  ghost predicate Relayed(e: Send, accepted: seq<ApiRequest>, pac: Packet) {
    && e.Answer? && e.id < |accepted| && e.fd == accepted[e.id].fd && e.bytes == pac.raw
    && pac.leader == RESPONSE_LEADER
    && accepted[e.id].pac.srcid == pac.srcid && accepted[e.id].pac.header == pac.header
    && CorrelationCrc(accepted[e.id].pac) == pac.reqcrc16
  }

  ghost predicate IsRelay(e: Send, accepted: seq<ApiRequest>, pool: seq<Packet>) {
    exists p | p in pool :: Relayed(e, accepted, p)
  }

  /** Every answer in the trace relays a response of the pool, and those to be handled are in it. */
  ghost predicate FromPool(s: State, pool: seq<Packet>) {
    && (forall j | 0 <= j < |s.sent| && s.sent[j].Answer? :: IsRelay(s.sent[j], s.accepted, pool))
    && (forall k | 0 <= k < |s.responses| :: s.responses[k].pac in pool && s.responses[k].pac.leader == RESPONSE_LEADER)
  }

  lemma IsRelayMore(e: Send, accepted: seq<ApiRequest>, pool: seq<Packet>, accepted': seq<ApiRequest>, pool': seq<Packet>)
    requires IsRelay(e, accepted, pool) && accepted <= accepted' && pool <= pool'
    ensures IsRelay(e, accepted', pool')
  {
    var p :| p in pool && Relayed(e, accepted, p);
    assert p in pool' && Relayed(e, accepted', p);
  }

  lemma FromPoolMore(s: State, pool: seq<Packet>, pool': seq<Packet>)
    requires FromPool(s, pool) && pool <= pool'
    ensures FromPool(s, pool')
  {
    forall j | 0 <= j < |s.sent| && s.sent[j].Answer?
      ensures IsRelay(s.sent[j], s.accepted, pool')
    {
      IsRelayMore(s.sent[j], s.accepted, pool, s.accepted, pool');
    }
  }

  lemma AcceptFromPool(s: State, fd: int, pac: Packet, now: nat, pool: seq<Packet>)
    requires FromPool(s, pool) && pac in pool
    ensures FromPool(Accept(s, fd, pac, now), pool)
  {
    var t := Accept(s, fd, pac, now);
    forall j | 0 <= j < |t.sent| && t.sent[j].Answer?
      ensures IsRelay(t.sent[j], t.accepted, pool)
    {
      IsRelayMore(s.sent[j], s.accepted, pool, t.accepted, pool);
    }
  }

  lemma {:induction false} AcceptAllFromPool(s: State, fd: int, pacs: seq<Packet>, now: nat, pool: seq<Packet>)
    requires FromPool(s, pool) && forall p | p in pacs :: p in pool
    ensures FromPool(AcceptAll(s, fd, pacs, now), pool)
    decreases |pacs|
  {
    if pacs != [] {
      assert pacs[0] in pacs;
      AcceptFromPool(s, fd, pacs[0], now, pool);
      AcceptAllFromPool(Accept(s, fd, pacs[0], now), fd, pacs[1..], now, pool);
    }
  }

  /** The packets that arrive, in the order in which they are parsed. */
  function PacketsOf(arrivals: seq<Arrival>): seq<Packet> {
    if arrivals == [] then [] else arrivals[0].packets + PacketsOf(arrivals[1..])
  }

  lemma {:induction false} AcceptArrivalsFromPool(s: State, arrivals: seq<Arrival>, now: nat, pool: seq<Packet>)
    requires FromPool(s, pool) && forall p | p in PacketsOf(arrivals) :: p in pool
    ensures FromPool(AcceptArrivals(s, arrivals, now), pool)
    decreases |arrivals|
  {
    if arrivals != [] {
      var a := arrivals[0];
      AcceptAllFromPool(s, a.fd, a.packets, now, pool);
      AcceptArrivalsFromPool(AcceptAll(s, a.fd, a.packets, now), arrivals[1..], now, pool);
    }
  }

  lemma {:induction false} RequestsFromPool(s: State, k: nat, now: nat, pool: seq<Packet>)
    requires FromPool(s, pool)
    ensures FromPool(HandleRequestsFrom(s, k, now), pool)
    decreases |s.requests| - k
  {
    if k < |s.requests| {
      var t := HandleRequestAt(s, k, now);
      RequestsFromPool(t, if |t.requests| == |s.requests| then k + 1 else k, now, pool);
    }
  }

  lemma MatchRelays(s: State, now: nat, k: nat, pac: Packet)
    requires Life(s.requests, s.accepted, s.sent) && InOrder(s.accepted, now)
    requires k < |s.requests| && Matches(s.requests[k], pac) && pac.leader == RESPONSE_LEADER
    ensures Relayed(Answer(s.requests[k].id, s.requests[k].fd, pac.raw), s.accepted, pac)
  {
    assert SameRequest(s.requests[k], s.accepted[s.requests[k].id]);
  }

  lemma ResponseFromPool(s: State, now: nat, pool: seq<Packet>)
    requires Life(s.requests, s.accepted, s.sent) && InOrder(s.accepted, now)
    requires FromPool(s, pool) && s.responses != []
    ensures FromPool(HandleResponse(s, now), pool)
  {
    var t, pac := HandleResponse(s, now), s.responses[0].pac;
    var k := FirstMatch(s.requests, pac);
    if k < |s.requests| {
      MatchRelays(s, now, k, pac);
      assert IsRelay(t.sent[|s.sent|], t.accepted, pool);
    }
  }

  lemma {:induction false} ResponsesFromPool(s: State, now: nat, pool: seq<Packet>)
    requires Life(s.requests, s.accepted, s.sent) && InOrder(s.accepted, now)
    requires Seated(s.requests, s.stations, now) && AllSettled(s.requests, now)
    requires FromPool(s, pool)
    ensures FromPool(HandleResponses(s, now), pool)
    decreases |s.responses|
  {
    if s.responses != [] {
      HandleResponseLife(s, now);
      HandleResponseSeated(s, now);
      ResponseFromPool(s, now, pool);
      ResponsesFromPool(HandleResponse(s, now), now, pool);
    }
  }

  lemma PollFromPool(s: State, before: nat, arrivals: seq<Arrival>, now: nat, pool: seq<Packet>)
    requires Sound(s, before) && before <= now
    requires FromPool(s, pool) && forall p | p in PacketsOf(arrivals) :: p in pool
    ensures FromPool(Poll(s, arrivals, now), pool)
  {
    var s0 := AcceptArrivals(s, arrivals, now);
    assert Seated(s.requests, s.stations, now);
    AcceptArrivalsFromPool(s, arrivals, now, pool);
    AcceptArrivalsLife(s, arrivals, now);
    AcceptArrivalsSeated(s, arrivals, now);
    var s1 := HandleRequestsFrom(s0, 0, now);
    RequestsFromPool(s0, 0, now, pool);
    HandleRequestsLife(s0, 0, now);
    HandleRequestsSeated(s0, 0, now);
    ResponsesFromPool(s1, now, pool);
    HandleResponsesSeated(s1, now);
    SameTrace(HandleResponses(s1, now), Poll(s, arrivals, now), pool);
  }

  lemma SameTrace(s: State, t: State, pool: seq<Packet>)
    requires FromPool(s, pool) && t.sent == s.sent && t.accepted == s.accepted && t.responses == []
    ensures FromPool(t, pool)
  {
  }

  /** All packets that arrive in a run. */
  function AllPackets(polls: seq<PollInput>): seq<Packet> {
    if polls == [] then []
    else AllPackets(polls[..|polls| - 1]) + PacketsOf(polls[|polls| - 1].arrivals)
  }

  lemma {:induction false} RunFromPool(polls: seq<PollInput>)
    requires Monotone(polls)
    ensures FromPool(Run(polls), AllPackets(polls))
  {
    if polls != [] {
      var before, last := polls[..|polls| - 1], polls[|polls| - 1];
      RunFromPool(before);
      RunSound(before);
      FromPoolMore(Run(before), AllPackets(before), AllPackets(polls));
      PollFromPool(Run(before), LastTime(before), last.arrivals, last.now, AllPackets(polls));
    }
  }

  /** Over every run, whatever is sent as an answer is a response that arrived, and it goes to the
      origin of a request with the same source, the same header and the checksum it carries. */
  lemma AnswersAreMatched(polls: seq<PollInput>, j: nat) returns (pac: Packet)
    requires Monotone(polls) && j < |Run(polls).sent| && Run(polls).sent[j].Answer?
    ensures pac in AllPackets(polls) && Relayed(Run(polls).sent[j], Run(polls).accepted, pac)
  {
    RunFromPool(polls);
    pac :| pac in AllPackets(polls) && Relayed(Run(polls).sent[j], Run(polls).accepted, pac);
  }

  // ---------------------------------------------------------------- forwardings

  /** Descriptor fd once brought a request from source id. */
  ghost predicate Brought(accepted: seq<ApiRequest>, id: nat, fd: int) {
    exists i | 0 <= i < |accepted| :: accepted[i].pac.srcid == id && accepted[i].fd == fd
  }

  ghost predicate Known(stations: seq<Station>, accepted: seq<ApiRequest>) {
    forall i | 0 <= i < |stations| :: Brought(accepted, stations[i].sttid, stations[i].fd)
  }

  /** The send carries a request to a descriptor that once brought one from the station its header
      names. */
  ghost predicate Addressed(e: Send, accepted: seq<ApiRequest>) {
    && e.Forward? && e.id < |accepted| && e.bytes == accepted[e.id].pac.raw
    && var d := Destination(accepted[e.id].pac.header); d.Some? && Brought(accepted, d.value, e.fd)
  }

  ghost predicate AllAddressed(s: State) {
    && Known(s.stations, s.accepted)
    && forall j | 0 <= j < |s.sent| && s.sent[j].Forward? :: Addressed(s.sent[j], s.accepted)
  }

  lemma BroughtMore(accepted: seq<ApiRequest>, accepted': seq<ApiRequest>, id: nat, fd: int)
    requires Brought(accepted, id, fd) && accepted <= accepted'
    ensures Brought(accepted', id, fd)
  {
    var i :| 0 <= i < |accepted| && accepted[i].pac.srcid == id && accepted[i].fd == fd;
    assert accepted'[i] == accepted[i];
  }

  lemma AddressedMore(s: State, t: State)
    requires AllAddressed(s) && t.stations == s.stations && t.sent == s.sent && s.accepted <= t.accepted
    ensures AllAddressed(t)
  {
    forall i | 0 <= i < |t.stations|
      ensures Brought(t.accepted, t.stations[i].sttid, t.stations[i].fd)
    {
      BroughtMore(s.accepted, t.accepted, s.stations[i].sttid, s.stations[i].fd);
    }
    forall j | 0 <= j < |t.sent| && t.sent[j].Forward?
      ensures Addressed(t.sent[j], t.accepted)
    {
      var e := s.sent[j];
      BroughtMore(s.accepted, t.accepted, Destination(s.accepted[e.id].pac.header).value, e.fd);
    }
  }

  lemma SourceKnown(s: State, r: ApiRequest, now: nat)
    requires Known(s.stations, s.accepted) && r.id < |s.accepted| && SameRequest(r, s.accepted[r.id])
    ensures Known(SeeSource(s.stations, r, now), s.accepted)
  {
    var seen := SeeSource(s.stations, r, now);
    assert Brought(s.accepted, r.pac.srcid, r.fd);
    forall i | 0 <= i < |seen|
      ensures Brought(s.accepted, seen[i].sttid, seen[i].fd)
    {
      if Find(s.stations, r.pac.srcid) == |s.stations| && i > 0 {
        assert seen[i] == s.stations[i - 1];
      }
    }
  }

  lemma RequestAddressed(s: State, k: nat, now: nat)
    requires Life(s.requests, s.accepted, s.sent) && AllAddressed(s) && k < |s.requests|
    ensures AllAddressed(HandleRequestAt(s, k, now))
  {
    var r, t := s.requests[k], HandleRequestAt(s, k, now);
    assert SameRequest(r, s.accepted[r.id]);
    if !r.waiting {
      SourceKnown(s, r, now);
      var seen := SeeSource(s.stations, r, now);
      var j := Target(seen, r.pac.header);
      if j < |seen| {
        assert Brought(s.accepted, seen[j].sttid, seen[j].fd);
        assert Addressed(Forward(r.id, seen[j].fd, r.pac.raw), t.accepted);
      }
    }
  }

  lemma {:induction false} RequestsAddressed(s: State, k: nat, now: nat)
    requires Life(s.requests, s.accepted, s.sent) && AllAddressed(s)
    ensures AllAddressed(HandleRequestsFrom(s, k, now))
    decreases |s.requests| - k
  {
    if k < |s.requests| {
      var t := HandleRequestAt(s, k, now);
      HandleRequestLife(s, k, now);
      RequestAddressed(s, k, now);
      RequestsAddressed(t, if |t.requests| == |s.requests| then k + 1 else k, now);
    }
  }

  lemma RefreshedKnown(stations: seq<Station>, k: nat, now: nat, accepted: seq<ApiRequest>)
    requires Known(stations, accepted) && k < |stations|
    ensures Known(Refreshed(stations, k, now), accepted)
  {
    var s := Refreshed(stations, k, now);
    forall i | 0 <= i < |s|
      ensures Brought(accepted, s[i].sttid, s[i].fd)
    {
      assert s[i].sttid == stations[i].sttid && s[i].fd == stations[i].fd;
    }
  }

  lemma {:induction false} ResponsesAddressed(s: State, now: nat)
    requires AllAddressed(s)
    ensures AllAddressed(HandleResponses(s, now))
    decreases |s.responses|
  {
    if s.responses != [] {
      var j := Target(s.stations, s.responses[0].pac.header);
      if j < |s.stations| {
        RefreshedKnown(s.stations, j, now, s.accepted);
      }
      ResponsesAddressed(HandleResponse(s, now), now);
    }
  }

  lemma {:induction false} AcceptAllAddressed(s: State, fd: int, pacs: seq<Packet>, now: nat)
    requires AllAddressed(s)
    ensures AllAddressed(AcceptAll(s, fd, pacs, now))
    decreases |pacs|
  {
    if pacs != [] {
      AddressedMore(s, Accept(s, fd, pacs[0], now));
      AcceptAllAddressed(Accept(s, fd, pacs[0], now), fd, pacs[1..], now);
    }
  }

  lemma {:induction false} AcceptArrivalsAddressed(s: State, arrivals: seq<Arrival>, now: nat)
    requires AllAddressed(s)
    ensures AllAddressed(AcceptArrivals(s, arrivals, now))
    decreases |arrivals|
  {
    if arrivals != [] {
      var a := arrivals[0];
      AcceptAllAddressed(s, a.fd, a.packets, now);
      AcceptArrivalsAddressed(AcceptAll(s, a.fd, a.packets, now), arrivals[1..], now);
    }
  }

  lemma PollAddressed(s: State, arrivals: seq<Arrival>, now: nat)
    requires Life(s.requests, s.accepted, s.sent) && AllAddressed(s)
    ensures AllAddressed(Poll(s, arrivals, now))
  {
    var s0 := AcceptArrivals(s, arrivals, now);
    AcceptArrivalsAddressed(s, arrivals, now);
    AcceptArrivalsLife(s, arrivals, now);
    RequestsAddressed(s0, 0, now);
    var s2 := HandleResponses(HandleRequestsFrom(s0, 0, now), now);
    ResponsesAddressed(HandleRequestsFrom(s0, 0, now), now);
    SurvivorsKnown(s2.stations, s2.accepted, now);
  }

  lemma SurvivorsKnown(stations: seq<Station>, accepted: seq<ApiRequest>, now: nat)
    requires Known(stations, accepted)
    ensures Known(ClearUnalive(stations, now), accepted)
  {
    var s := ClearUnalive(stations, now);
    ClearUnaliveKeeps(stations, now);
    forall i | 0 <= i < |s|
      ensures Brought(accepted, s[i].sttid, s[i].fd)
    {
      var j :| 0 <= j < |stations| && stations[j] == s[i];
    }
  }

  lemma {:induction false} RunAddressed(polls: seq<PollInput>)
    requires Monotone(polls)
    ensures AllAddressed(Run(polls))
  {
    if polls != [] {
      var before, last := polls[..|polls| - 1], polls[|polls| - 1];
      RunAddressed(before);
      RunSound(before);
      PollAddressed(Run(before), last.arrivals, last.now);
    }
  }

  /** Over every run, a request is forwarded, its bytes unchanged, only to a descriptor that once
      brought a request from the station its header names. */
  lemma ForwardsAreAddressed(polls: seq<PollInput>, j: nat)
    requires Monotone(polls) && j < |Run(polls).sent| && Run(polls).sent[j].Forward?
    ensures Addressed(Run(polls).sent[j], Run(polls).accepted)
  {
    RunAddressed(polls);
  }

  // ---------------------------------------------------------------- timeouts

  /** Among the sends after the first n. */
  predicate SentSince(sent: seq<Send>, n: nat, e: Send) {
    n <= |sent| && e in sent[n..]
  }

  lemma OverduePlace(s: State, before: nat, now: nat, k: nat)
    requires Sound(s, before) && before <= now && k < |s.requests| && now >= s.requests[k].tsSend + 3
    ensures FirstExpired(s.requests, now) <= k
  {
    ExpiredTail(s, before, now);
    assert s.requests[k].waiting && Expired(s.requests[k], now);
  }

  lemma TimeoutAt(requests: seq<ApiRequest>, m: nat, i: nat, k: nat)
    requires k == m + i < |requests|
    ensures i < |TimeoutsOf(requests[m..])| && TimeoutsOf(requests[m..])[i] == TimedOut(requests[k].id, requests[k].fd)
  {
    assert requests[m..][i] == requests[k];
  }

  lemma OverdueInPass(s: State, before: nat, arrivals: seq<Arrival>, now: nat, k: nat) returns (all: seq<Send>)
    requires Sound(s, before) && before <= now && k < |s.requests| && now >= s.requests[k].tsSend + 3
    ensures all == HandleRequestsFrom(AcceptArrivals(s, arrivals, now), 0, now).sent
    ensures SentSince(all, |s.sent|, TimedOut(s.requests[k].id, s.requests[k].fd))
  {
    var t, m := HandleRequestsFrom(AcceptArrivals(s, arrivals, now), 0, now), FirstExpired(s.requests, now);
    all := t.sent;
    OverduePlace(s, before, now, k);
    var i := k - m;
    TimeoutAt(s.requests, m, i, k);
    assert SentSince(all, |s.sent|, TimeoutsOf(s.requests[m..])[i]) by {
      var j, news := TimeoutsAreATail(s, before, arrivals, now);
      InTail(s, t, m, j, news, i);
    }
  }

  lemma InTail(s: State, t: State, m: nat, j: nat, news: seq<Send>, i: nat)
    requires m <= |s.requests| && TailTimedOut(s, t, m, j, news) && i < |TimeoutsOf(s.requests[m..])|
    ensures SentSince(t.sent, |s.sent|, TimeoutsOf(s.requests[m..])[i])
  {
    InExtension(s.sent, news, TimeoutsOf(s.requests[m..]), i, t.sent, t.sent);
  }

  /** A request that has waited for three seconds is timed out by the next poll, even if its answer
      arrives with it. */
  lemma OverdueTimesOut(s: State, before: nat, arrivals: seq<Arrival>, now: nat, k: nat)
    requires Sound(s, before) && before <= now && k < |s.requests| && now >= s.requests[k].tsSend + 3
    ensures SentSince(Poll(s, arrivals, now).sent, |s.sent|, TimedOut(s.requests[k].id, s.requests[k].fd))
  {
    var all := OverdueInPass(s, before, arrivals, now, k);
    ResponsesGrow(HandleRequestsFrom(AcceptArrivals(s, arrivals, now), 0, now), now);
    SinceGrows(all, Poll(s, arrivals, now).sent, |s.sent|, TimedOut(s.requests[k].id, s.requests[k].fd));
  }

  lemma SinceGrows(sent: seq<Send>, sent': seq<Send>, n: nat, e: Send)
    requires SentSince(sent, n, e) && sent <= sent'
    ensures SentSince(sent', n, e)
  {
    var i :| 0 <= i < |sent[n..]| && sent[n..][i] == e;
    assert sent'[n..][i] == e;
  }

  lemma InExtension(a: seq<Send>, b: seq<Send>, c: seq<Send>, i: nat, s: seq<Send>, t: seq<Send>)
    requires i < |c| && s == a + b + c && s <= t
    ensures SentSince(t, |a|, c[i])
  {
    assert t[|a|..][|b| + i] == c[i];
  }
}
