/** Safety of the bus over every run of polls with a clock that never goes back. */
module BusSafety {
  import opened Srrp
  import opened BusModel
  import opened BusLife

  // ---------------------------------------------------------------- stations

  predicate UniqueStations(stations: seq<Station>) {
    forall i, j | 0 <= i < j < |stations| :: stations[i].sttid != stations[j].sttid
  }

  predicate SeenBy(stations: seq<Station>, now: nat) {
    forall i | 0 <= i < |stations| :: stations[i].tsAlive <= now
  }

  /** The station is registered and was alive at time t or later. */
  predicate AliveSince(stations: seq<Station>, sttid: nat, t: nat) {
    exists i | 0 <= i < |stations| :: stations[i].sttid == sttid && stations[i].tsAlive >= t
  }

  /** Every station is still there and none looks older. */
  ghost predicate Younger(stations: seq<Station>, stations': seq<Station>) {
    forall sttid, t | AliveSince(stations, sttid, t) :: AliveSince(stations', sttid, t)
  }

  lemma RefreshedKeeps(stations: seq<Station>, k: nat, now: nat)
    requires UniqueStations(stations) && SeenBy(stations, now) && k < |stations|
    ensures var s := Refreshed(stations, k, now);
            && UniqueStations(s) && SeenBy(s, now) && Younger(stations, s)
            && AliveSince(s, stations[k].sttid, now)
  {
    var s := Refreshed(stations, k, now);
    assert s[k].sttid == stations[k].sttid && s[k].tsAlive == now;
    forall sttid, t | AliveSince(stations, sttid, t)
      ensures AliveSince(s, sttid, t)
    {
      var i :| 0 <= i < |stations| && stations[i].sttid == sttid && stations[i].tsAlive >= t;
      assert s[i].sttid == sttid && s[i].tsAlive >= t;
    }
  }

  lemma SeeSourceKeeps(stations: seq<Station>, r: ApiRequest, now: nat)
    requires UniqueStations(stations) && SeenBy(stations, now)
    ensures var s := SeeSource(stations, r, now);
            && UniqueStations(s) && SeenBy(s, now) && Younger(stations, s)
            && AliveSince(s, r.pac.srcid, now)
  {
    var k := Find(stations, r.pac.srcid);
    if k < |stations| {
      RefreshedKeeps(stations, k, now);
    } else {
      var s := SeeSource(stations, r, now);
      assert s[0].sttid == r.pac.srcid && s[0].tsAlive == now;
      forall sttid, t | AliveSince(stations, sttid, t)
        ensures AliveSince(s, sttid, t)
      {
        var i :| 0 <= i < |stations| && stations[i].sttid == sttid && stations[i].tsAlive >= t;
        assert s[i + 1] == stations[i];
      }
    }
  }

  lemma {:induction false} ClearUnaliveKeeps(stations: seq<Station>, now: nat)
    ensures var s := ClearUnalive(stations, now);
            && (forall i | 0 <= i < |s| :: s[i] in stations && Alive(s[i], now))
            && (forall i | 0 <= i < |stations| :: Alive(stations[i], now) ==> stations[i] in s)
            && (UniqueStations(stations) ==> UniqueStations(s))
  {
    if stations != [] {
      ClearUnaliveKeeps(stations[1..], now);
      assert stations == [stations[0]] + stations[1..];
      var s, rest := ClearUnalive(stations, now), ClearUnalive(stations[1..], now);
      if UniqueStations(stations) {
        forall i | 0 <= i < |rest|
          ensures rest[i].sttid != stations[0].sttid
        {
          var j :| 0 <= j < |stations[1..]| && stations[1..][j] == rest[i];
          assert stations[1 + j] == rest[i];
        }
      }
    }
  }

  // ---------------------------------------------------------------- the invariant inside a poll

  /** Requests are recorded in the order of their accept times, with the checksum of their header
      and data. */
  predicate InOrder(accepted: seq<ApiRequest>, now: nat) {
    && (forall i, j | 0 <= i < j < |accepted| :: accepted[i].tsCreate <= accepted[j].tsCreate)
    && (forall i | 0 <= i < |accepted| ::
          accepted[i].tsCreate <= now && accepted[i].crc16 == CorrelationCrc(accepted[i].pac))
  }

  /** A waiting request was sent in the poll that accepted it, and its source is registered; one
      not yet handled was accepted in this poll. */
  predicate Placed(r: ApiRequest, stations: seq<Station>, now: nat) {
    if r.waiting then r.tsSend == r.tsCreate && AliveSince(stations, r.pac.srcid, r.tsSend)
    else r.tsCreate == now
  }

  predicate AllPlaced(requests: seq<ApiRequest>, stations: seq<Station>, now: nat) {
    forall k | 0 <= k < |requests| :: Placed(requests[k], stations, now)
  }

  predicate Seated(requests: seq<ApiRequest>, stations: seq<Station>, now: nat) {
    UniqueStations(stations) && SeenBy(stations, now) && AllPlaced(requests, stations, now)
  }

  /** Handled in this poll: waiting, and not timed out. */
  predicate Settled(r: ApiRequest, now: nat) {
    r.waiting && now < r.tsSend + REQUEST_TIMEOUT
  }

  predicate AllSettled(requests: seq<ApiRequest>, now: nat) {
    forall k | 0 <= k < |requests| :: Settled(requests[k], now)
  }

  lemma PlacedYounger(requests: seq<ApiRequest>, stations: seq<Station>, stations': seq<Station>, now: nat)
    requires AllPlaced(requests, stations, now) && Younger(stations, stations')
    ensures AllPlaced(requests, stations', now)
  {
  }

  // ---------------------------------------------------------------- accepting

  lemma AcceptLife(s: State, fd: int, pac: Packet, now: nat)
    requires Life(s.requests, s.accepted, s.sent)
    ensures var t := Accept(s, fd, pac, now); Life(t.requests, t.accepted, t.sent)
  {
    if pac.leader == REQUEST_LEADER {
      LifeAccept(s.requests, s.accepted, s.sent,
                 ApiRequest(|s.accepted|, pac, false, now, 0, fd, CorrelationCrc(pac)));
    }
  }

  lemma {:induction false} AcceptAllLife(s: State, fd: int, pacs: seq<Packet>, now: nat)
    requires Life(s.requests, s.accepted, s.sent)
    ensures var t := AcceptAll(s, fd, pacs, now); Life(t.requests, t.accepted, t.sent)
    decreases |pacs|
  {
    if pacs != [] {
      AcceptLife(s, fd, pacs[0], now);
      AcceptAllLife(Accept(s, fd, pacs[0], now), fd, pacs[1..], now);
    }
  }

  lemma AcceptSeated(s: State, fd: int, pac: Packet, now: nat)
    requires Seated(s.requests, s.stations, now) && InOrder(s.accepted, now)
    ensures var t := Accept(s, fd, pac, now);
            && Seated(t.requests, t.stations, now) && InOrder(t.accepted, now)
            && s.sent == t.sent && s.accepted <= t.accepted
  {
    if pac.leader == REQUEST_LEADER {
      var r := ApiRequest(|s.accepted|, pac, false, now, 0, fd, CorrelationCrc(pac));
      PlacedMore(s.requests, s.stations, r, now);
      InOrderMore(s.accepted, r, now);
    }
  }

  lemma PlacedMore(requests: seq<ApiRequest>, stations: seq<Station>, r: ApiRequest, now: nat)
    requires AllPlaced(requests, stations, now) && !r.waiting && r.tsCreate == now
    ensures AllPlaced([r] + requests, stations, now)
  {
    assert forall k | 1 <= k <= |requests| :: ([r] + requests)[k] == requests[k - 1];
  }

  lemma InOrderMore(accepted: seq<ApiRequest>, r: ApiRequest, now: nat)
    requires InOrder(accepted, now) && r.tsCreate == now && r.crc16 == CorrelationCrc(r.pac)
    ensures InOrder(accepted + [r], now)
  {
  }

  lemma {:induction false} AcceptAllSeated(s: State, fd: int, pacs: seq<Packet>, now: nat)
    requires Seated(s.requests, s.stations, now) && InOrder(s.accepted, now)
    ensures var t := AcceptAll(s, fd, pacs, now);
            && Seated(t.requests, t.stations, now) && InOrder(t.accepted, now)
            && s.sent == t.sent && s.accepted <= t.accepted
    decreases |pacs|
  {
    if pacs != [] {
      AcceptSeated(s, fd, pacs[0], now);
      AcceptAllSeated(Accept(s, fd, pacs[0], now), fd, pacs[1..], now);
    }
  }

  lemma {:induction false} AcceptArrivalsLife(s: State, arrivals: seq<Arrival>, now: nat)
    requires Life(s.requests, s.accepted, s.sent)
    ensures var t := AcceptArrivals(s, arrivals, now); Life(t.requests, t.accepted, t.sent)
    decreases |arrivals|
  {
    if arrivals != [] {
      var a := arrivals[0];
      AcceptAllLife(s, a.fd, a.packets, now);
      AcceptArrivalsLife(AcceptAll(s, a.fd, a.packets, now), arrivals[1..], now);
    }
  }

  lemma {:induction false} AcceptArrivalsSeated(s: State, arrivals: seq<Arrival>, now: nat)
    requires Seated(s.requests, s.stations, now) && InOrder(s.accepted, now)
    ensures var t := AcceptArrivals(s, arrivals, now);
            && Seated(t.requests, t.stations, now) && InOrder(t.accepted, now)
            && s.sent == t.sent && s.accepted <= t.accepted
    decreases |arrivals|
  {
    if arrivals != [] {
      var a := arrivals[0];
      AcceptAllSeated(s, a.fd, a.packets, now);
      AcceptArrivalsSeated(AcceptAll(s, a.fd, a.packets, now), arrivals[1..], now);
    }
  }

  // ---------------------------------------------------------------- the request pass

  lemma HandleRequestLife(s: State, k: nat, now: nat)
    requires Life(s.requests, s.accepted, s.sent) && k < |s.requests|
    ensures var t := HandleRequestAt(s, k, now); Life(t.requests, t.accepted, t.sent)
  {
    var r := s.requests[k];
    if r.waiting {
      if now >= r.tsSend + REQUEST_TIMEOUT {
        LifeEnd(s.requests, s.accepted, s.sent, k, TimedOut(r.id, r.fd));
      }
    } else {
      var seen := SeeSource(s.stations, r, now);
      var j := Target(seen, r.pac.header);
      if j == |seen| {
        LifeEnd(s.requests, s.accepted, s.sent, k, NotFound(r.id, r.fd));
      } else {
        LifeForward(s.requests, s.accepted, s.sent, k, seen[j].fd, now);
      }
    }
  }

  lemma HandleRequestSeated(s: State, k: nat, now: nat)
    requires Seated(s.requests, s.stations, now) && k < |s.requests|
    ensures var t := HandleRequestAt(s, k, now);
            && Seated(t.requests, t.stations, now)
            && s.sent <= t.sent && s.accepted == t.accepted
            && (|t.requests| == |s.requests| ==> Settled(t.requests[k], now))
  {
    var r, t := s.requests[k], HandleRequestAt(s, k, now);
    if !r.waiting {
      SeeSourceKeeps(s.stations, r, now);
      PlacedYounger(s.requests, s.stations, t.stations, now);
    }
  }

  lemma {:induction false} HandleRequestsLife(s: State, k: nat, now: nat)
    requires Life(s.requests, s.accepted, s.sent)
    ensures var t := HandleRequestsFrom(s, k, now); Life(t.requests, t.accepted, t.sent)
    decreases |s.requests| - k
  {
    if k < |s.requests| {
      var t := HandleRequestAt(s, k, now);
      HandleRequestLife(s, k, now);
      HandleRequestsLife(t, if |t.requests| == |s.requests| then k + 1 else k, now);
    }
  }

  lemma {:induction false} HandleRequestsSeated(s: State, k: nat, now: nat)
    requires Seated(s.requests, s.stations, now) && k <= |s.requests| && AllSettled(s.requests[..k], now)
    ensures var t := HandleRequestsFrom(s, k, now);
            && Seated(t.requests, t.stations, now) && AllSettled(t.requests, now)
            && s.sent <= t.sent && s.accepted == t.accepted
    decreases |s.requests| - k
  {
    if k < |s.requests| {
      var t := HandleRequestAt(s, k, now);
      HandleRequestSeated(s, k, now);
      assert forall l | 0 <= l < k :: t.requests[l] == s.requests[..k][l];
      HandleRequestsSeated(t, if |t.requests| == |s.requests| then k + 1 else k, now);
    } else {
      assert s.requests[..k] == s.requests;
    }
  }

  lemma {:induction false} RequestsKeepResponses(s: State, k: nat, now: nat)
    ensures HandleRequestsFrom(s, k, now).responses == s.responses
    decreases |s.requests| - k
  {
    if k < |s.requests| {
      var t := HandleRequestAt(s, k, now);
      RequestsKeepResponses(t, if |t.requests| == |s.requests| then k + 1 else k, now);
    }
  }

  lemma {:induction false} PassGrows(s: State, k: nat, now: nat)
    ensures s.sent <= HandleRequestsFrom(s, k, now).sent
    decreases |s.requests| - k
  {
    if k < |s.requests| {
      var t := HandleRequestAt(s, k, now);
      PassGrows(t, if |t.requests| == |s.requests| then k + 1 else k, now);
    }
  }

  lemma {:induction false} ResponsesGrow(s: State, now: nat)
    ensures s.sent <= HandleResponses(s, now).sent
    decreases |s.responses|
  {
    if s.responses != [] {
      ResponsesGrow(HandleResponse(s, now), now);
    }
  }

  // ---------------------------------------------------------------- the response pass

  lemma HandleResponseLife(s: State, now: nat)
    requires Life(s.requests, s.accepted, s.sent) && AllSettled(s.requests, now) && s.responses != []
    ensures var t := HandleResponse(s, now); Life(t.requests, t.accepted, t.sent)
  {
    var pac := s.responses[0].pac;
    var k := FirstMatch(s.requests, pac);
    if k < |s.requests| {
      LifeEnd(s.requests, s.accepted, s.sent, k, Answer(s.requests[k].id, s.requests[k].fd, pac.raw));
    }
  }

  lemma HandleResponseSeated(s: State, now: nat)
    requires Seated(s.requests, s.stations, now) && AllSettled(s.requests, now) && s.responses != []
    ensures var t := HandleResponse(s, now);
            && Seated(t.requests, t.stations, now) && AllSettled(t.requests, now)
            && s.sent <= t.sent && s.accepted == t.accepted
  {
    var j := Target(s.stations, s.responses[0].pac.header);
    var t := HandleResponse(s, now);
    if j < |s.stations| {
      RefreshedKeeps(s.stations, j, now);
      PlacedYounger(s.requests, s.stations, t.stations, now);
    }
  }

  lemma {:induction false} HandleResponsesLife(s: State, now: nat)
    requires Life(s.requests, s.accepted, s.sent)
    requires Seated(s.requests, s.stations, now) && AllSettled(s.requests, now)
    ensures var t := HandleResponses(s, now); Life(t.requests, t.accepted, t.sent)
    decreases |s.responses|
  {
    if s.responses != [] {
      HandleResponseLife(s, now);
      HandleResponseSeated(s, now);
      HandleResponsesLife(HandleResponse(s, now), now);
    }
  }

  lemma {:induction false} HandleResponsesSeated(s: State, now: nat)
    requires Seated(s.requests, s.stations, now) && AllSettled(s.requests, now)
    ensures var t := HandleResponses(s, now);
            && Seated(t.requests, t.stations, now) && AllSettled(t.requests, now)
            && s.sent <= t.sent && s.accepted == t.accepted && t.responses == []
    decreases |s.responses|
  {
    if s.responses != [] {
      HandleResponseSeated(s, now);
      HandleResponsesSeated(HandleResponse(s, now), now);
    }
  }

  // ---------------------------------------------------------------- polls and runs

  /** What holds between polls, the last one at time now: the trace tells each request's life;
      every request has been forwarded and is not overdue; its source is registered and was
      alive when it was sent; station ids are unique, and each station was heard of within 600
      seconds; nothing else is left in the queues. */
  ghost predicate Sound(s: State, now: nat) {
    && Life(s.requests, s.accepted, s.sent)
    && Seated(s.requests, s.stations, now) && AllSettled(s.requests, now)
    && InOrder(s.accepted, now)
    && s.responses == [] && s.topicMsgs == []
    && forall i | 0 <= i < |s.stations| :: now <= s.stations[i].tsAlive + 600
  }

  lemma ClearKeepsAlive(stations: seq<Station>, sttid: nat, t: nat, now: nat)
    requires AliveSince(stations, sttid, t) && now <= t + STATION_TIMEOUT
    ensures AliveSince(ClearUnalive(stations, now), sttid, t)
  {
    var s := ClearUnalive(stations, now);
    var i :| 0 <= i < |stations| && stations[i].sttid == sttid && stations[i].tsAlive >= t;
    ClearUnaliveKeeps(stations, now);
    assert stations[i] in s;
  }

  /** Expiring stations never takes away the source of a pending request. */
  lemma ClearKeepsSeated(requests: seq<ApiRequest>, stations: seq<Station>, now: nat)
    requires Seated(requests, stations, now) && AllSettled(requests, now)
    ensures Seated(requests, ClearUnalive(stations, now), now)
  {
    forall k | 0 <= k < |requests|
      ensures Placed(requests[k], ClearUnalive(stations, now), now)
    {
      var r := requests[k];
      assert Placed(r, stations, now) && Settled(r, now);
      ClearKeepsAlive(stations, r.pac.srcid, r.tsSend, now);
    }
    ClearUnaliveKeeps(stations, now);
  }

  lemma PollLife(s: State, arrivals: seq<Arrival>, now: nat)
    requires Life(s.requests, s.accepted, s.sent)
    requires Seated(s.requests, s.stations, now) && InOrder(s.accepted, now)
    ensures var t := Poll(s, arrivals, now); Life(t.requests, t.accepted, t.sent)
  {
    var s0 := AcceptArrivals(s, arrivals, now);
    AcceptArrivalsLife(s, arrivals, now);
    AcceptArrivalsSeated(s, arrivals, now);
    HandleRequestsLife(s0, 0, now);
    HandleRequestsSeated(s0, 0, now);
    HandleResponsesLife(HandleRequestsFrom(s0, 0, now), now);
  }

  lemma PollSeated(s: State, arrivals: seq<Arrival>, now: nat)
    requires Seated(s.requests, s.stations, now) && InOrder(s.accepted, now)
    ensures var t := Poll(s, arrivals, now);
            && Seated(t.requests, t.stations, now) && AllSettled(t.requests, now) && InOrder(t.accepted, now)
            && s.sent <= t.sent && s.accepted <= t.accepted && t.responses == [] && t.topicMsgs == []
            && forall i | 0 <= i < |t.stations| :: now <= t.stations[i].tsAlive + 600
  {
    var s0 := AcceptArrivals(s, arrivals, now);
    AcceptArrivalsSeated(s, arrivals, now);
    HandleRequestsSeated(s0, 0, now);
    var s1 := HandleRequestsFrom(s0, 0, now);
    HandleResponsesSeated(s1, now);
    var s2 := HandleResponses(s1, now);
    ClearKeepsSeated(s2.requests, s2.stations, now);
    ClearUnaliveKeeps(s2.stations, now);
  }

  /** One poll keeps the invariant, whatever packets arrive, and only adds to the trace and to
      the record of accepted requests. */
  lemma PollKeeps(s: State, before: nat, arrivals: seq<Arrival>, now: nat)
    requires Sound(s, before) && before <= now
    ensures var t := Poll(s, arrivals, now);
            Sound(t, now) && s.sent <= t.sent && s.accepted <= t.accepted
  {
    assert Seated(s.requests, s.stations, now);
    PollLife(s, arrivals, now);
    PollSeated(s, arrivals, now);
  }

  /** The invariant holds in every state a run of polls can reach. */
  lemma {:induction false} RunSound(polls: seq<PollInput>)
    requires Monotone(polls)
    ensures Sound(Run(polls), LastTime(polls))
  {
    if polls != [] {
      var before, last := polls[..|polls| - 1], polls[|polls| - 1];
      RunSound(before);
      PollKeeps(Run(before), LastTime(before), last.arrivals, last.now);
    }
  }
}
