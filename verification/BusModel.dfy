/** The message bus as values: what a poll does to the pending requests, the responses, the
    stations and the trace of sends. One clock reading, in seconds, is used per poll. */
module BusModel {
  import opened Sequences
  import opened Options
  import opened Bytes
  import opened Srrp
  import Binary
  import Decimal
  import Crc16
  import Gf2

  /** API_REQUEST_TIMEOUT / 1000 */
  const REQUEST_TIMEOUT := 3
  /** APIBUS_STATION_ALIVE_TIMEOUT / 1000 */
  const STATION_TIMEOUT := 600

  /** waiting is API_REQUEST_ST_WAIT_RESPONSE. id numbers the accepted requests and exists only
      in the model. */
  datatype ApiRequest = ApiRequest(
    id: nat, pac: Packet, waiting: bool, tsCreate: nat, tsSend: nat, fd: int, crc16: nat)

  datatype ApiResponse = ApiResponse(pac: Packet, fd: int)

  datatype TopicMsg = TopicMsg(pac: Packet, fd: int)

  datatype Station = Station(sttid: nat, tsAlive: nat, fd: int)

  /** A call of apibus_send: on behalf of request id, to descriptor fd. A forwarding and an answer
      carry a packet's bytes; the other two carry the fixed texts "request timeout" and
      "STATION NOT FOUND". */
  datatype Send =
    | Forward(id: nat, fd: int, bytes: seq<byte>)
    | Answer(id: nat, fd: int, bytes: seq<byte>)
    | TimedOut(id: nat, fd: int)
    | NotFound(id: nat, fd: int)

  /** The lists of struct apibus, newest entry first; sent is the trace of sends, and accepted
      the requests ever accepted, in order, as they were accepted. */
  datatype State = State(
    requests: seq<ApiRequest>, responses: seq<ApiResponse>, stations: seq<Station>, topicMsgs: seq<TopicMsg>,
    sent: seq<Send>, accepted: seq<ApiRequest>)

  const EMPTY := State([], [], [], [], [], [])

  // ---------------------------------------------------------------- accepting packets

  /** The checksum that correlates a response with its request: header, then data. */
  function CorrelationCrc(pac: Packet): nat {
    Binary.Value(Crc16.TableCrc(Crc16.TableCrc(Gf2.Zeros(16), pac.header), pac.data))
  }

  /** What parse_packet does with one packet. */
  function Accept(s: State, fd: int, pac: Packet, now: nat): State {
    if pac.leader == REQUEST_LEADER then
      var r := ApiRequest(|s.accepted|, pac, false, now, 0, fd, CorrelationCrc(pac));
      s.(requests := [r] + s.requests, accepted := s.accepted + [r])
    else if pac.leader == RESPONSE_LEADER then
      s.(responses := [ApiResponse(pac, fd)] + s.responses)
    else if IsSubPubLeader(pac.leader) then
      s.(topicMsgs := [TopicMsg(pac, fd)] + s.topicMsgs)
    else s
  }

  function AcceptAll(s: State, fd: int, pacs: seq<Packet>, now: nat): State
    decreases |pacs|
  {
    if pacs == [] then s else AcceptAll(Accept(s, fd, pacs[0], now), fd, pacs[1..], now)
  }

  // ---------------------------------------------------------------- stations

  /** find_station */
  function Find(stations: seq<Station>, sttid: nat): (k: nat)
    ensures k <= |stations|
    ensures k < |stations| ==> stations[k].sttid == sttid
    ensures forall i | 0 <= i < k :: stations[i].sttid != sttid
  {
    if stations == [] || stations[0].sttid == sttid then 0 else 1 + Find(stations[1..], sttid)
  }

  function Refreshed(stations: seq<Station>, k: nat, now: nat): seq<Station>
    requires k < |stations|
  {
    stations[k := stations[k].(tsAlive := now)]
  }

  /** The source of a request is registered, or shown to be alive. */
  function SeeSource(stations: seq<Station>, r: ApiRequest, now: nat): seq<Station> {
    var k := Find(stations, r.pac.srcid);
    if k == |stations| then [Station(r.pac.srcid, now, r.fd)] + stations else Refreshed(stations, k, now)
  }

  function SkipSpace(s: seq<byte>): seq<byte> {
    if s != [] && IsSpace(s[0]) then SkipSpace(s[1..]) else s
  }

  function LeadingDigits(s: seq<byte>): (d: seq<byte>)
    ensures Decimal.AllDigits(d)
  {
    if s != [] && IsDigit(s[0]) then [s[0]] + LeadingDigits(s[1..]) else []
  }

  /** The low 16 bits of what sscanf stores for "%d": it stops at the limits of a 64-bit long. */
  function Low16(negative: bool, v: nat): nat {
    if negative then (if v > 0x8000_0000_0000_0000 then 0 else (65536 - v % 65536) % 65536)
    else if v >= 0x8000_0000_0000_0000 then 65535
    else v % 65536
  }

  /** The destination sscanf(header, "/%d/") names, as find_station takes it. */
  function Destination(header: seq<byte>): Option<nat> {
    if header == [] || header[0] != '/' then None
    else
      var s := SkipSpace(header[1..]);
      var signed := s != [] && (s[0] == '-' || s[0] == '+');
      var d := LeadingDigits(if signed then s[1..] else s);
      if d == [] then None else Some(Low16(signed && s[0] == '-', Decimal.Number(d)))
  }

  /** The station a request goes to, or |stations|. */
  function Target(stations: seq<Station>, header: seq<byte>): (k: nat)
    ensures k <= |stations|
  {
    match Destination(header)
    case None => |stations|
    case Some(id) => Find(stations, id)
  }

  // ---------------------------------------------------------------- requests

  predicate Expired(r: ApiRequest, now: nat) {
    r.waiting && now >= r.tsSend + REQUEST_TIMEOUT
  }

  /** The body of handle_request's loop, at place k of the list. */
  function HandleRequestAt(s: State, k: nat, now: nat): State
    requires k < |s.requests|
  {
    var r := s.requests[k];
    if r.waiting then
      if now < r.tsSend + REQUEST_TIMEOUT then s
      else s.(requests := Without(s.requests, k), sent := s.sent + [TimedOut(r.id, r.fd)])
    else
      var seen := SeeSource(s.stations, r, now);
      var j := Target(seen, r.pac.header);
      if j == |seen| then
        s.(requests := Without(s.requests, k), stations := seen, sent := s.sent + [NotFound(r.id, r.fd)])
      else
        s.(requests := s.requests[k := r.(waiting := true, tsSend := now)], stations := seen,
           sent := s.sent + [Forward(r.id, seen[j].fd, r.pac.raw)])
  }

  /** handle_request from place k of the list on: an entry that stays is stepped over, one that
      is deleted lets its successor move up. */
  function HandleRequestsFrom(s: State, k: nat, now: nat): State
    decreases |s.requests| - k
  {
    if k >= |s.requests| then s
    else
      var t := HandleRequestAt(s, k, now);
      HandleRequestsFrom(t, if |t.requests| == |s.requests| then k + 1 else k, now)
  }

  // ---------------------------------------------------------------- responses

  /** The three tests of handle_response. */
  predicate Matches(r: ApiRequest, pac: Packet) {
    r.crc16 == pac.reqcrc16 && r.pac.header == pac.header && r.pac.srcid == pac.srcid
  }

  function FirstMatch(requests: seq<ApiRequest>, pac: Packet): (k: nat)
    ensures k <= |requests|
    ensures k < |requests| ==> Matches(requests[k], pac)
    ensures forall i | 0 <= i < k :: !Matches(requests[i], pac)
  {
    if requests == [] || Matches(requests[0], pac) then 0 else 1 + FirstMatch(requests[1..], pac)
  }

  /** The body of handle_response's loop, on the first response of the list. */
  function HandleResponse(s: State, now: nat): State
    requires s.responses != []
  {
    var pac := s.responses[0].pac;
    var k := FirstMatch(s.requests, pac);
    var j := Target(s.stations, pac.header);
    var stations := if j < |s.stations| then Refreshed(s.stations, j, now) else s.stations;
    if k == |s.requests| then s.(responses := s.responses[1..], stations := stations)
    else
      s.(requests := Without(s.requests, k), responses := s.responses[1..], stations := stations,
         sent := s.sent + [Answer(s.requests[k].id, s.requests[k].fd, pac.raw)])
  }

  /** handle_response */
  function HandleResponses(s: State, now: nat): State
    decreases |s.responses|
  {
    if s.responses == [] then s else HandleResponses(HandleResponse(s, now), now)
  }

  // ---------------------------------------------------------------- poll

  predicate Alive(st: Station, now: nat) {
    now <= st.tsAlive + STATION_TIMEOUT
  }

  /** clear_unalive_station */
  function ClearUnalive(stations: seq<Station>, now: nat): seq<Station> {
    if stations == [] then []
    else (if Alive(stations[0], now) then [stations[0]] else []) + ClearUnalive(stations[1..], now)
  }

  /** What the sinks delivered to one descriptor and parsing made of it. */
  datatype Arrival = Arrival(fd: int, packets: seq<Packet>)

  function AcceptArrivals(s: State, arrivals: seq<Arrival>, now: nat): State
    decreases |arrivals|
  {
    if arrivals == [] then s
    else AcceptArrivals(AcceptAll(s, arrivals[0].fd, arrivals[0].packets, now), arrivals[1..], now)
  }

  /** The second half of apibus_poll: requests, responses, topic messages (dropped here), stations. */
  function Handle(s: State, now: nat): State {
    var t := HandleResponses(HandleRequestsFrom(s, 0, now), now);
    t.(topicMsgs := [], stations := ClearUnalive(t.stations, now))
  }

  /** apibus_poll after the sinks have been polled: parse, then handle. */
  function Poll(s: State, arrivals: seq<Arrival>, now: nat): State {
    Handle(AcceptArrivals(s, arrivals, now), now)
  }

  datatype PollInput = PollInput(arrivals: seq<Arrival>, now: nat)

  /** The state after a whole run of polls from an empty bus. */
  function Run(polls: seq<PollInput>): State {
    if polls == [] then EMPTY
    else
      var last := polls[|polls| - 1];
      Poll(Run(polls[..|polls| - 1]), last.arrivals, last.now)
  }

  /** A clock that never goes back. */
  predicate Monotone(polls: seq<PollInput>) {
    forall i, j | 0 <= i < j < |polls| :: polls[i].now <= polls[j].now
  }

  function LastTime(polls: seq<PollInput>): nat {
    if polls == [] then 0 else polls[|polls| - 1].now
  }
}
