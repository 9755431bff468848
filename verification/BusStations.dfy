/** The station list as a map from station id to station, and where a request goes. */
module BusStations {
  import opened BusModel
  import opened BusSafety
  import opened Options
  import opened Bytes
  import opened Destinations

  function StationMap(stations: seq<Station>): (m: map<nat, Station>)
    ensures forall id :: id in m <==> exists i | 0 <= i < |stations| :: stations[i].sttid == id
    ensures UniqueStations(stations) ==> forall i | 0 <= i < |stations| :: m[stations[i].sttid] == stations[i]
  {
    if stations == [] then map[]
    else
      var m := StationMap(stations[1..])[stations[0].sttid := stations[0]];
      assert forall i | 0 < i < |stations| :: stations[i] == stations[1..][i - 1];
      assert stations[0].sttid in m;
      m
  }

  /** find_station is lookup. */
  lemma FindIsLookup(stations: seq<Station>, id: nat)
    requires UniqueStations(stations)
    ensures var k := Find(stations, id);
            if id in StationMap(stations) then k < |stations| && stations[k] == StationMap(stations)[id]
            else k == |stations|
  {
  }

  /** A list with unique ids whose entries are exactly a map's values stands for that map. */
  lemma SameMap(stations: seq<Station>, m: map<nat, Station>)
    requires UniqueStations(stations)
    requires forall i | 0 <= i < |stations| :: stations[i].sttid in m && m[stations[i].sttid] == stations[i]
    requires forall id | id in m :: exists i | 0 <= i < |stations| :: stations[i].sttid == id
    ensures StationMap(stations) == m
  {
  }

  lemma PutFirst(stations: seq<Station>, st: Station)
    requires UniqueStations(stations) && st.sttid !in StationMap(stations)
    ensures StationMap([st] + stations) == StationMap(stations)[st.sttid := st]
  {
    assert ([st] + stations)[1..] == stations;
  }

  lemma PutAt(stations: seq<Station>, k: nat, st: Station)
    requires UniqueStations(stations) && k < |stations| && st.sttid == stations[k].sttid
    ensures StationMap(stations[k := st]) == StationMap(stations)[st.sttid := st]
  {
    var s, m := stations[k := st], StationMap(stations)[st.sttid := st];
    forall id | id in m
      ensures exists i | 0 <= i < |s| :: s[i].sttid == id
    {
      var i :| 0 <= i < |stations| && stations[i].sttid == id;
      assert s[i].sttid == id;
    }
    SameMap(s, m);
  }

  /** Seeing a request registers its source with the request's descriptor, or, when the source is
      known, only moves its alive time: the first descriptor stays. */
  lemma SeeSourceIsUpdate(stations: seq<Station>, r: ApiRequest, now: nat)
    requires UniqueStations(stations)
    ensures var m, id := StationMap(stations), r.pac.srcid;
            StationMap(SeeSource(stations, r, now))
            == m[id := Station(id, now, if id in m then m[id].fd else r.fd)]
  {
    var k := Find(stations, r.pac.srcid);
    FindIsLookup(stations, r.pac.srcid);
    if k == |stations| {
      PutFirst(stations, Station(r.pac.srcid, now, r.fd));
    } else {
      PutAt(stations, k, stations[k].(tsAlive := now));
    }
  }

  function AliveOnly(m: map<nat, Station>, now: nat): (kept: map<nat, Station>)
    ensures forall id :: id in kept <==> id in m && now <= m[id].tsAlive + 600
    ensures forall id | id in kept :: kept[id] == m[id]
  {
    map id | id in m && now <= m[id].tsAlive + 600 :: m[id]
  }

  lemma SurvivorsAreAlive(stations: seq<Station>, now: nat, i: nat)
    requires UniqueStations(stations) && i < |ClearUnalive(stations, now)|
    ensures var st, kept := ClearUnalive(stations, now)[i], AliveOnly(StationMap(stations), now);
            st.sttid in kept && kept[st.sttid] == st
  {
    ClearUnaliveKeeps(stations, now);
    var st := ClearUnalive(stations, now)[i];
    var j :| 0 <= j < |stations| && stations[j] == st;
    assert StationMap(stations)[stations[j].sttid] == st;
  }

  lemma AliveSurvive(stations: seq<Station>, now: nat, id: nat)
    requires UniqueStations(stations) && id in AliveOnly(StationMap(stations), now)
    ensures exists i | 0 <= i < |ClearUnalive(stations, now)| :: ClearUnalive(stations, now)[i].sttid == id
  {
    ClearUnaliveKeeps(stations, now);
    var j :| 0 <= j < |stations| && stations[j].sttid == id;
    assert stations[j] in ClearUnalive(stations, now);
  }

  /** Expiry drops exactly the stations not heard of for more than 600 seconds. */
  lemma ClearIsFilter(stations: seq<Station>, now: nat)
    requires UniqueStations(stations)
    ensures StationMap(ClearUnalive(stations, now)) == AliveOnly(StationMap(stations), now)
  {
    var s, kept := ClearUnalive(stations, now), AliveOnly(StationMap(stations), now);
    ClearUnaliveKeeps(stations, now);
    forall i | 0 <= i < |s|
      ensures s[i].sttid in kept && kept[s[i].sttid] == s[i]
    {
      SurvivorsAreAlive(stations, now, i);
    }
    forall id | id in kept
      ensures exists i | 0 <= i < |s| :: s[i].sttid == id
    {
      AliveSurvive(stations, now, id);
    }
    SameMap(s, kept);
  }

  /** A request that is new goes where its header says, looked up after its own source has been
      registered. */
  lemma RequestFollowsDestination(s: State, k: nat, now: nat, d: Option<nat>)
    requires UniqueStations(s.stations) && k < |s.requests| && !s.requests[k].waiting && d == Destination(s.requests[k].pac.header)
    ensures var t, r := HandleRequestAt(s, k, now), s.requests[k];
            var m := StationMap(t.stations);
            && t.sent == s.sent + [
                 if d.Some? && d.value in m then Forward(r.id, m[d.value].fd, r.pac.raw)
                 else NotFound(r.id, r.fd)]
            && t.stations == SeeSource(s.stations, r, now)
  {
    var r := s.requests[k];
    var seen := SeeSource(s.stations, r, now);
    SeeSourceUnique(s.stations, r, now);
    if d.Some? {
      FindIsLookup(seen, d.value);
    }
  }

  /** A request that is new and names station n goes to the descriptor of that station, looked up
      after its own source has been registered; it is answered "not found" if and only if there is
      none. */
  lemma RequestGoesToDestination(s: State, k: nat, now: nat, n: nat, rest: seq<byte>)
    requires UniqueStations(s.stations) && k < |s.requests| && !s.requests[k].waiting
    requires s.requests[k].pac.header == Naming(n, rest) && n < 65536 && (rest == [] || !IsDigit(rest[0]))
    ensures var t, r, m := HandleRequestAt(s, k, now), s.requests[k], StationMap(s.stations);
            var known := m[r.pac.srcid := Station(r.pac.srcid, now, if r.pac.srcid in m then m[r.pac.srcid].fd else r.fd)];
            && StationMap(t.stations) == known
            && t.sent == s.sent + [if n in known then Forward(r.id, known[n].fd, r.pac.raw) else NotFound(r.id, r.fd)]
  {
    assert Destination(s.requests[k].pac.header) == Some(n) by {
      PlainDestination(n, rest);
    }
    RequestFollowsDestination(s, k, now, Some(n));
    SeeSourceIsUpdate(s.stations, s.requests[k], now);
  }

  lemma SeeSourceUnique(stations: seq<Station>, r: ApiRequest, now: nat)
    requires UniqueStations(stations)
    ensures UniqueStations(SeeSource(stations, r, now))
  {
  }
}
