/** Which stations are registered, told from what arrives: exactly after every poll and over every run,
    and what that decides about each new request. */
module StationLife {
  import opened Options
  import opened Srrp
  import opened BusModel
  import opened BusSafety
  import opened BusStations
  import opened Destinations
  import Bytes

  /** The station registered under an id. */
  function Lookup(stations: seq<Station>, id: nat): Option<Station> {
    if id in StationMap(stations) then Some(StationMap(stations)[id]) else None
  }

  // ---------------------------------------------------------------- what arrives

  predicate Requests(pacs: seq<Packet>, id: nat) {
    exists p | p in pacs :: p.leader == REQUEST_LEADER && p.srcid == id
  }

  /** The last descriptor that brings a request whose source is id. */
  function RequestedFrom(arrivals: seq<Arrival>, id: nat): Option<int> {
    if arrivals == [] then None
    else
      var later := RequestedFrom(arrivals[1..], id);
      if later.Some? then later else if Requests(arrivals[0].packets, id) then Some(arrivals[0].fd) else None
  }

  /** A response whose header names the station arrives. */
  ghost predicate Answered(arrivals: seq<Arrival>, id: nat) {
    exists a, p | a in arrivals && p in a.packets :: p.leader == RESPONSE_LEADER && Destination(p.header) == Some(id)
  }

  /** What a poll makes of one station: a request from it registers it, or shows that it is alive and
      leaves it its descriptor; a response that names it shows that it is alive if it is registered;
      otherwise it goes when nothing has been heard of it for more than 600 seconds. */
  ghost function Next(prev: Option<Station>, id: nat, arrivals: seq<Arrival>, now: nat): Option<Station> {
    var from := RequestedFrom(arrivals, id);
    if from.Some? then Some(Station(id, now, if prev.Some? then prev.value.fd else from.value))
    else if prev.None? then None
    else if Answered(arrivals, id) then Some(prev.value.(tsAlive := now))
    else if now <= prev.value.tsAlive + 600 then prev
    else None
  }

  // ---------------------------------------------------------------- accepting

  /** The descriptor of the first request in the list that is new and whose source is id. */
  function NewFrom(requests: seq<ApiRequest>, id: nat): Option<int> {
    if requests == [] then None
    else if !requests[0].waiting && requests[0].pac.srcid == id then Some(requests[0].fd)
    else NewFrom(requests[1..], id)
  }

  function Or(a: Option<int>, b: Option<int>): Option<int> {
    if a.Some? then a else b
  }

  lemma {:induction false} AcceptAllFrom(s: State, fd: int, pacs: seq<Packet>, now: nat, id: nat)
    ensures var t := AcceptAll(s, fd, pacs, now);
            && t.stations == s.stations
            && NewFrom(t.requests, id) == if Requests(pacs, id) then Some(fd) else NewFrom(s.requests, id)
    decreases |pacs|
  {
    if pacs != [] {
      var t := Accept(s, fd, pacs[0], now);
      assert pacs[0].leader == REQUEST_LEADER ==> t.requests[1..] == s.requests;
      AcceptAllFrom(t, fd, pacs[1..], now, id);
      assert forall p | p in pacs :: p == pacs[0] || p in pacs[1..];
    }
  }

  lemma {:induction false} AcceptArrivalsFrom(s: State, arrivals: seq<Arrival>, now: nat, id: nat)
    ensures var t := AcceptArrivals(s, arrivals, now);
            && t.stations == s.stations
            && NewFrom(t.requests, id) == Or(RequestedFrom(arrivals, id), NewFrom(s.requests, id))
    decreases |arrivals|
  {
    if arrivals != [] {
      var a := arrivals[0];
      AcceptAllFrom(s, a.fd, a.packets, now, id);
      AcceptArrivalsFrom(AcceptAll(s, a.fd, a.packets, now), arrivals[1..], now, id);
    }
  }

  /** One of the responses to be handled names the station. */
  ghost predicate NamedBy(responses: seq<ApiResponse>, id: nat) {
    exists r | r in responses :: Destination(r.pac.header) == Some(id)
  }

  ghost predicate AnsweredIn(pacs: seq<Packet>, id: nat) {
    exists p | p in pacs :: p.leader == RESPONSE_LEADER && Destination(p.header) == Some(id)
  }

  lemma NamedByMore(r: ApiResponse, responses: seq<ApiResponse>, id: nat)
    ensures NamedBy([r] + responses, id) <==> Destination(r.pac.header) == Some(id) || NamedBy(responses, id)
  {
    assert r in [r] + responses;
    if NamedBy(responses, id) {
      var x :| x in responses && Destination(x.pac.header) == Some(id);
      assert x in [r] + responses;
    }
  }

  lemma {:induction false} AcceptAllNamed(s: State, fd: int, pacs: seq<Packet>, now: nat, id: nat)
    ensures NamedBy(AcceptAll(s, fd, pacs, now).responses, id) <==> AnsweredIn(pacs, id) || NamedBy(s.responses, id)
    decreases |pacs|
  {
    if pacs != [] {
      var t, p := Accept(s, fd, pacs[0], now), pacs[0];
      AcceptAllNamed(t, fd, pacs[1..], now, id);
      if p.leader == RESPONSE_LEADER {
        NamedByMore(ApiResponse(p, fd), s.responses, id);
      }
      assert AnsweredIn(pacs, id) <==> (p.leader == RESPONSE_LEADER && Destination(p.header) == Some(id)) || AnsweredIn(pacs[1..], id) by {
        assert forall x | x in pacs :: x == p || x in pacs[1..];
      }
    }
  }

  lemma AnsweredMore(arrivals: seq<Arrival>, id: nat)
    requires arrivals != []
    ensures Answered(arrivals, id) <==> AnsweredIn(arrivals[0].packets, id) || Answered(arrivals[1..], id)
  {
    assert forall a | a in arrivals :: a == arrivals[0] || a in arrivals[1..];
  }

  lemma {:induction false} AcceptArrivalsNamed(s: State, arrivals: seq<Arrival>, now: nat, id: nat)
    ensures NamedBy(AcceptArrivals(s, arrivals, now).responses, id) <==> Answered(arrivals, id) || NamedBy(s.responses, id)
    decreases |arrivals|
  {
    if arrivals != [] {
      var a := arrivals[0];
      AcceptAllNamed(s, a.fd, a.packets, now, id);
      AcceptArrivalsNamed(AcceptAll(s, a.fd, a.packets, now), arrivals[1..], now, id);
      AnsweredMore(arrivals, id);
    }
  }

  // ---------------------------------------------------------------- the request pass

  /** What new requests make of one station. */
  function Seen(prev: Option<Station>, from: Option<int>, id: nat, now: nat): Option<Station> {
    if from.None? then prev else Some(Station(id, now, if prev.Some? then prev.value.fd else from.value))
  }

  lemma LookupSeen(stations: seq<Station>, r: ApiRequest, now: nat, id: nat)
    requires UniqueStations(stations)
    ensures var from := if r.pac.srcid == id then Some(r.fd) else None;
            UniqueStations(SeeSource(stations, r, now))
            && Lookup(SeeSource(stations, r, now), id) == Seen(Lookup(stations, id), from, id, now)
  {
    SeeSourceIsUpdate(stations, r, now);
    SeeSourceUnique(stations, r, now);
  }

  lemma RequestStep(s: State, k: nat, now: nat, id: nat)
    requires UniqueStations(s.stations) && k < |s.requests|
    ensures var t, r := HandleRequestAt(s, k, now), s.requests[k];
            var from := if !r.waiting && r.pac.srcid == id then Some(r.fd) else None;
            && UniqueStations(t.stations) && Lookup(t.stations, id) == Seen(Lookup(s.stations, id), from, id, now)
            && t.requests[if |t.requests| == |s.requests| then k + 1 else k..] == s.requests[k + 1..]
            && s.sent <= t.sent
  {
    var r := s.requests[k];
    if !r.waiting {
      LookupSeen(s.stations, r, now, id);
    }
  }

  /** The request pass registers or refreshes exactly the sources of new requests. */
  lemma {:induction false} RequestPass(s: State, k: nat, now: nat, id: nat)
    requires UniqueStations(s.stations) && k <= |s.requests|
    ensures var t := HandleRequestsFrom(s, k, now);
            && UniqueStations(t.stations)
            && Lookup(t.stations, id) == Seen(Lookup(s.stations, id), NewFrom(s.requests[k..], id), id, now)
    decreases |s.requests| - k
  {
    if k < |s.requests| {
      var t := HandleRequestAt(s, k, now);
      RequestStep(s, k, now, id);
      RequestPass(t, if |t.requests| == |s.requests| then k + 1 else k, now, id);
      assert s.requests[k..][1..] == s.requests[k + 1..];
    }
  }

  // ---------------------------------------------------------------- the response pass

  function Refresh(prev: Option<Station>, named: bool, now: nat): Option<Station> {
    if named && prev.Some? then Some(prev.value.(tsAlive := now)) else prev
  }

  lemma TargetRefreshed(stations: seq<Station>, id: nat, now: nat)
    requires UniqueStations(stations)
    ensures var k, m := Find(stations, id), StationMap(stations);
            if k == |stations| then id !in m
            else id in m && UniqueStations(Refreshed(stations, k, now))
                 && StationMap(Refreshed(stations, k, now)) == m[id := m[id].(tsAlive := now)]
  {
    FindIsLookup(stations, id);
    var k := Find(stations, id);
    if k < |stations| {
      PutAt(stations, k, stations[k].(tsAlive := now));
    }
  }

  lemma ResponseStep(s: State, now: nat, id: nat)
    requires UniqueStations(s.stations) && s.responses != []
    ensures var t := HandleResponse(s, now);
            && UniqueStations(t.stations)
            && Lookup(t.stations, id)
               == Refresh(Lookup(s.stations, id), Destination(s.responses[0].pac.header) == Some(id), now)
  {
    var d := Destination(s.responses[0].pac.header);
    if d.Some? {
      TargetRefreshed(s.stations, d.value, now);
    }
  }

  /** A response shows that the station its header names is alive, if that is registered, and changes
      no other. */
  lemma ResponseRefreshes(s: State, now: nat, n: nat, rest: seq<Bytes.byte>)
    requires UniqueStations(s.stations) && s.responses != []
    requires s.responses[0].pac.header == Naming(n, rest) && n < 65536 && (rest == [] || !Bytes.IsDigit(rest[0]))
    ensures var m := StationMap(s.stations);
            StationMap(HandleResponse(s, now).stations) == if n in m then m[n := m[n].(tsAlive := now)] else m
  {
    assert Destination(s.responses[0].pac.header) == Some(n) by {
      PlainDestination(n, rest);
    }
    TargetRefreshed(s.stations, n, now);
  }

  lemma {:induction false} ResponsePass(s: State, now: nat, id: nat)
    requires UniqueStations(s.stations)
    ensures var t := HandleResponses(s, now);
            && UniqueStations(t.stations)
            && Lookup(t.stations, id) == Refresh(Lookup(s.stations, id), NamedBy(s.responses, id), now)
    decreases |s.responses|
  {
    if s.responses != [] {
      var t := HandleResponse(s, now);
      ResponseStep(s, now, id);
      ResponsePass(t, now, id);
      assert s.responses == [s.responses[0]] + t.responses;
      NamedByMore(s.responses[0], t.responses, id);
    }
  }

  // ---------------------------------------------------------------- polls and runs

  function Unless600(prev: Option<Station>, now: nat): Option<Station> {
    if prev.Some? && now <= prev.value.tsAlive + 600 then prev else None
  }

  lemma ExpiryStep(stations: seq<Station>, now: nat, id: nat)
    requires UniqueStations(stations)
    ensures UniqueStations(ClearUnalive(stations, now))
    ensures Lookup(ClearUnalive(stations, now), id) == Unless600(Lookup(stations, id), now)
  {
    ClearUnaliveKeeps(stations, now);
    ClearIsFilter(stations, now);
  }

  lemma {:induction false} NoneNew(requests: seq<ApiRequest>, id: nat)
    requires forall k | 0 <= k < |requests| :: requests[k].waiting
    ensures NewFrom(requests, id) == None
  {
    if requests != [] {
      NoneNew(requests[1..], id);
    }
  }

  /** After a poll each station is registered exactly as what arrived says. */
  lemma PollStations(s: State, before: nat, arrivals: seq<Arrival>, now: nat, id: nat)
    requires Sound(s, before) && before <= now
    ensures Lookup(Poll(s, arrivals, now).stations, id) == Next(Lookup(s.stations, id), id, arrivals, now)
  {
    var s0 := AcceptArrivals(s, arrivals, now);
    AcceptArrivalsFrom(s, arrivals, now, id);
    AcceptArrivalsNamed(s, arrivals, now, id);
    assert NewFrom(s.requests, id) == None by {
      forall k | 0 <= k < |s.requests|
        ensures s.requests[k].waiting
      {
        assert Settled(s.requests[k], before);
      }
      NoneNew(s.requests, id);
    }
    HandleStations(s0, now, id);
  }

  /** The three passes of a poll that change stations. */
  lemma HandleStations(s: State, now: nat, id: nat)
    requires UniqueStations(s.stations)
    ensures var seen := Seen(Lookup(s.stations, id), NewFrom(s.requests, id), id, now);
            Lookup(Handle(s, now).stations, id) == Unless600(Refresh(seen, NamedBy(s.responses, id), now), now)
  {
    var s1 := HandleRequestsFrom(s, 0, now);
    RequestPass(s, 0, now, id);
    assert s.requests[0..] == s.requests;
    RequestsKeepResponses(s, 0, now);
    ResponsePass(s1, now, id);
    ExpiryStep(HandleResponses(s1, now).stations, now, id);
  }

  /** The station with an id after a run, told from what arrived. */
  ghost function Registered(polls: seq<PollInput>, id: nat): Option<Station> {
    if polls == [] then None
    else
      var last := polls[|polls| - 1];
      Next(Registered(polls[..|polls| - 1], id), id, last.arrivals, last.now)
  }

  /** Over every run: the bus's stations are those registered by what arrived. */
  lemma {:induction false} RunStations(polls: seq<PollInput>, id: nat)
    requires Monotone(polls)
    ensures Lookup(Run(polls).stations, id) == Registered(polls, id)
  {
    if polls != [] {
      var before, last := polls[..|polls| - 1], polls[|polls| - 1];
      RunStations(before, id);
      RunSound(before);
      PollStations(Run(before), LastTime(before), last.arrivals, last.now, id);
    }
  }

  // ---------------------------------------------------------------- how long a station stays

  /** st' is the same registration, heard of no earlier. */
  predicate Follows(st: Station, st': Option<Station>) {
    st'.Some? && st'.value.fd == st.fd && st'.value.tsAlive >= st.tsAlive
  }

  lemma NextFollows(st: Station, prev: Option<Station>, id: nat, arrivals: seq<Arrival>, now: nat)
    requires Follows(st, prev) && prev.value.tsAlive <= now <= st.tsAlive + 600
    ensures Follows(st, Next(prev, id, arrivals, now))
  {
  }

  lemma LastIsLatest(polls: seq<PollInput>)
    requires Monotone(polls) && polls != []
    ensures var before := polls[..|polls| - 1]; Monotone(before) && LastTime(before) <= LastTime(polls)
  {
  }

  lemma {:induction false} RegisteredGrows(polls: seq<PollInput>, n: nat, id: nat, st: Station)
    requires Monotone(polls) && n <= |polls| && Registered(polls[..n], id) == Some(st)
    requires LastTime(polls) <= st.tsAlive + 600
    ensures Follows(st, Registered(polls, id))
    decreases |polls|
  {
    if n == |polls| {
      assert polls[..n] == polls;
    } else {
      var before, last := polls[..|polls| - 1], polls[|polls| - 1];
      assert before[..n] == polls[..n];
      LastIsLatest(polls);
      RegisteredGrows(before, n, id, st);
      RunStations(before, id);
      RunSound(before);
      AliveInPast(Run(before).stations, LastTime(before), id);
      NextFollows(st, Registered(before, id), id, last.arrivals, last.now);
    }
  }

  lemma AliveInPast(stations: seq<Station>, now: nat, id: nat)
    requires SeenBy(stations, now) && UniqueStations(stations)
    ensures var st := Lookup(stations, id); st.Some? ==> st.value.tsAlive <= now && st.value.sttid == id
  {
    FindIsLookup(stations, id);
  }

  /** A station that is registered after some poll of a run is registered, with the same descriptor,
      after every later poll up to 600 seconds from when it was alive. */
  lemma StaysRegistered(polls: seq<PollInput>, n: nat, id: nat, st: Station)
    requires Monotone(polls) && n <= |polls| && Lookup(Run(polls[..n]).stations, id) == Some(st)
    requires LastTime(polls) <= st.tsAlive + 600
    ensures var st' := Lookup(Run(polls).stations, id); st'.Some? && st'.value.fd == st.fd
  {
    RunStations(polls, id);
    RunStations(polls[..n], id);
    RegisteredGrows(polls, n, id, st);
  }

  /** A response that names a registered station keeps it for 600 seconds. */
  lemma AnswerKeepsStation(polls: seq<PollInput>, n: nat, id: nat, rest: seq<Bytes.byte>, a: Arrival, p: Packet, st: Station)
    requires Monotone(polls) && n < |polls| && a in polls[n].arrivals && p in a.packets
    requires p.leader == RESPONSE_LEADER && p.header == Naming(id, rest) && id < 65536 && (rest == [] || !Bytes.IsDigit(rest[0]))
    requires Lookup(Run(polls[..n]).stations, id) == Some(st) && LastTime(polls) <= polls[n].now + 600
    ensures var st' := Lookup(Run(polls).stations, id); st'.Some? && st'.value.fd == st.fd
  {
    NamedAnswer(polls[n].arrivals, id, rest, a, p);
    AnsweredAlive(polls, n, id, st);
    StaysRegistered(polls, n + 1, id, st.(tsAlive := polls[n].now));
  }

  lemma NamedAnswer(arrivals: seq<Arrival>, id: nat, rest: seq<Bytes.byte>, a: Arrival, p: Packet)
    requires a in arrivals && p in a.packets && p.leader == RESPONSE_LEADER
    requires p.header == Naming(id, rest) && id < 65536 && (rest == [] || !Bytes.IsDigit(rest[0]))
    ensures Answered(arrivals, id)
  {
    PlainDestination(id, rest);
  }

  lemma AnsweredAlive(polls: seq<PollInput>, n: nat, id: nat, st: Station)
    requires Monotone(polls) && n < |polls| && Answered(polls[n].arrivals, id) && Lookup(Run(polls[..n]).stations, id) == Some(st)
    ensures Lookup(Run(polls[..n + 1]).stations, id) == Some(st.(tsAlive := polls[n].now))
  {
    RegisteredMore(polls, n, id);
    RunStations(polls[..n], id);
    RunStations(polls[..n + 1], id);
    RunSound(polls[..n]);
    AliveInPast(Run(polls[..n]).stations, LastTime(polls[..n]), id);
  }

  lemma RegisteredMore(polls: seq<PollInput>, n: nat, id: nat)
    requires n < |polls|
    ensures Registered(polls[..n + 1], id) == Next(Registered(polls[..n], id), id, polls[n].arrivals, polls[n].now)
  {
    assert polls[..n + 1][..n] == polls[..n];
  }

  /** It was heard of in this poll: as the source of a request or in a response's header. */
  ghost predicate Heard(poll: PollInput, id: nat) {
    RequestedFrom(poll.arrivals, id).Some? || Answered(poll.arrivals, id)
  }

  /** A station that is registered after a run was heard of at its alive time, no more than 600 seconds
      before. */
  lemma {:induction false} RegisteredWasHeard(polls: seq<PollInput>, id: nat) returns (n: nat)
    requires Monotone(polls) && Lookup(Run(polls).stations, id).Some?
    ensures var st := Lookup(Run(polls).stations, id).value;
            n < |polls| && polls[n].now == st.tsAlive && Heard(polls[n], id) && LastTime(polls) <= st.tsAlive + 600
    decreases |polls|
  {
    var before, last := polls[..|polls| - 1], polls[|polls| - 1];
    RunStations(polls, id);
    RunStations(before, id);
    if Heard(last, id) {
      n := |polls| - 1;
    } else {
      n := RegisteredWasHeard(before, id);
    }
  }

  // ---------------------------------------------------------------- what becomes of a new request

  /** The station that a header names, when these requests have come to be known. */
  function TargetAmong(stations: seq<Station>, requests: seq<ApiRequest>, header: seq<Bytes.byte>, now: nat): Option<Station> {
    match Destination(header)
    case None => None
    case Some(d) => Seen(Lookup(stations, d), NewFrom(requests, d), d, now)
  }

  /** What is sent for a request whose header names that station, or none. */
  function Fate(r: ApiRequest, target: Option<Station>): Send {
    match target
    case None => NotFound(r.id, r.fd)
    case Some(st) => Forward(r.id, st.fd, r.pac.raw)
  }

  lemma FateHere(s: State, k: nat, now: nat, d: Option<nat>)
    requires UniqueStations(s.stations) && k < |s.requests| && !s.requests[k].waiting && d == Destination(s.requests[k].pac.header)
    ensures var t, r := HandleRequestAt(s, k, now), s.requests[k];
            t.sent == s.sent + [Fate(r, if d.None? then None else Seen(Lookup(s.stations, d.value), NewFrom([r], d.value), d.value, now))]
  {
    var r := s.requests[k];
    assert [r][1..] == [];
    RequestFollowsDestination(s, k, now, d);
    if d.Some? {
      LookupSeen(s.stations, r, now, d.value);
    }
  }

  lemma FirstCounts(r: ApiRequest, requests: seq<ApiRequest>, all: seq<ApiRequest>, prev: Option<Station>, d: nat, now: nat)
    requires all == [r] + requests
    ensures var from := if !r.waiting && r.pac.srcid == d then Some(r.fd) else None;
            Seen(Seen(prev, from, d, now), NewFrom(requests, d), d, now) == Seen(prev, NewFrom(all, d), d, now)
  {
    assert all[1..] == requests;
  }

  lemma SegmentAfter(s: State, k: nat, j: nat, now: nat, t: State, k': nat, j': nat)
    requires k < j < |s.requests| && t == HandleRequestAt(s, k, now)
    requires if |t.requests| == |s.requests| then k' == k + 1 && j' == j else k' == k && j' == j - 1
    ensures k' <= j' < |t.requests| && t.requests[j'] == s.requests[j]
    ensures s.requests[k..j + 1] == [s.requests[k]] + t.requests[k'..j' + 1]
  {
  }

  /** In a request pass, each new request is forwarded to the station its header names or is answered
      "not found". The stations known by then are those before the pass and the sources of the new
      requests up to and including this one. */
  lemma {:induction false} RequestFate(s: State, k: nat, j: nat, now: nat)
    requires UniqueStations(s.stations) && k <= j < |s.requests| && !s.requests[j].waiting
    ensures var r := s.requests[j];
            Fate(r, TargetAmong(s.stations, s.requests[k..j + 1], r.pac.header, now)) in HandleRequestsFrom(s, k, now).sent
    decreases |s.requests| - k
  {
    var t, r := HandleRequestAt(s, k, now), s.requests[j];
    var k' := if |t.requests| == |s.requests| then k + 1 else k;
    if j == k {
      FateHere(s, k, now, Destination(r.pac.header));
      assert s.requests[k..k + 1] == [r];
      PassGrows(t, k', now);
      assert t.sent[|s.sent|] == HandleRequestsFrom(t, k', now).sent[|s.sent|];
    } else {
      var j' := if |t.requests| == |s.requests| then j else j - 1;
      SegmentAfter(s, k, j, now, t, k', j');
      var d := Destination(r.pac.header);
      RequestStep(s, k, now, if d.Some? then d.value else 0);
      if d.Some? {
        FirstCounts(s.requests[k], t.requests[k'..j' + 1], s.requests[k..j + 1], Lookup(s.stations, d.value), d.value, now);
      }
      RequestFate(t, k', j', now);
    }
  }

  /** Over a poll: a request that arrives in it is forwarded if its header names a station that was
      registered before the poll, or the source of a request that arrived in the same poll, this one
      or one after it; otherwise it is answered "not found". */
  lemma NewRequestFate(s: State, before: nat, arrivals: seq<Arrival>, now: nat, j: nat)
    requires Sound(s, before) && before <= now
    requires j < |AcceptArrivals(s, arrivals, now).requests| && !AcceptArrivals(s, arrivals, now).requests[j].waiting
    ensures var requests := AcceptArrivals(s, arrivals, now).requests;
            Fate(requests[j], TargetAmong(s.stations, requests[..j + 1], requests[j].pac.header, now)) in Poll(s, arrivals, now).sent
  {
    var s0 := AcceptArrivals(s, arrivals, now);
    AcceptArrivalsFrom(s, arrivals, now, 0);
    RequestFate(s0, 0, j, now);
    var s1 := HandleRequestsFrom(s0, 0, now);
    ResponsesGrow(s1, now);
    assert s0.requests[0..j + 1] == s0.requests[..j + 1];
    var e := Fate(s0.requests[j], TargetAmong(s.stations, s0.requests[..j + 1], s0.requests[j].pac.header, now));
    var i :| 0 <= i < |s1.sent| && s1.sent[i] == e;
    assert HandleResponses(s1, now).sent[i] == e;
  }
}
