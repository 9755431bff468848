/** What the invariant means, for every run of polls: conservation, one end per request, bounded
    waiting, the order of the list, and which request a response consumes. */
module BusTheorems {
  import opened Sequences
  import opened Bytes
  import opened Srrp
  import opened BusModel
  import opened BusLife
  import opened BusSafety

  /** Over every run: accepted = pending + answered + timed out + not found. */
  lemma Conservation(polls: seq<PollInput>)
    requires Monotone(polls)
    ensures var s := Run(polls);
            |s.accepted| == |s.requests| + Answers(s.sent) + Timeouts(s.sent) + Misses(s.sent)
  {
    RunSound(polls);
  }

  // ---------------------------------------------------------------- one end per request

  lemma {:induction false} HistoryPrefix(sent: seq<Send>, n: nat, id: nat)
    requires n <= |sent|
    ensures History(sent[..n], id) <= History(sent, id)
    decreases |sent|
  {
    if n == |sent| {
      assert sent[..n] == sent;
    } else {
      var before := sent[..|sent| - 1];
      HistoryPrefix(before, n, id);
      assert before[..n] == sent[..n];
    }
  }

  lemma {:induction false} HistoryMember(sent: seq<Send>, id: nat, a: nat) returns (i: nat)
    requires a < |History(sent, id)|
    ensures i < |sent| && sent[i] == History(sent, id)[a] && sent[i].id == id
    decreases |sent|
  {
    var before := sent[..|sent| - 1];
    if a < |History(before, id)| {
      i := HistoryMember(before, id, a);
    } else {
      i := |sent| - 1;
    }
  }

  /** The place of a send in the history of its request. */
  lemma HistoryPlace(sent: seq<Send>, j: nat)
    requires j < |sent|
    ensures var id := sent[j].id;
            var b := |History(sent[..j], id)|;
            && b < |History(sent, id)| && History(sent, id)[b] == sent[j]
            && History(sent[..j], id) == History(sent, id)[..b]
  {
    var id := sent[j].id;
    assert sent[..j + 1][..j] == sent[..j];
    assert History(sent[..j + 1], id) == History(sent[..j], id) + [sent[j]];
    HistoryPrefix(sent, j + 1, id);
  }

  lemma HistoryGrows(sent: seq<Send>, i: nat, j: nat)
    requires i < j < |sent| && sent[i].id == sent[j].id
    ensures |History(sent[..i], sent[i].id)| < |History(sent[..j], sent[j].id)|
  {
    var cut := sent[..j];
    assert cut[i] == sent[i] && cut[..i] == sent[..i];
    HistoryPlace(cut, i);
  }

  lemma EndedNotPending(s: State, now: nat, j: nat)
    requires Sound(s, now) && j < |s.sent| && !s.sent[j].Forward?
    ensures var id := s.sent[j].id;
            && id < |s.accepted| && !Pending(s.requests, id)
            && FinishedHistory(History(s.sent, id), s.accepted[id])
  {
    var id := s.sent[j].id;
    HistoryPlace(s.sent, j);
    forall k | 0 <= k < |s.requests|
      ensures s.requests[k].id != id
    {
      assert PendingHistory(History(s.sent, s.requests[k].id), s.requests[k]);
    }
  }

  lemma OnlyEnd(sent: seq<Send>, j: nat, origin: ApiRequest)
    requires j < |sent| && !sent[j].Forward?
    requires FinishedHistory(History(sent, sent[j].id), origin)
    ensures sent[j].fd == origin.fd
    ensures forall k | 0 <= k < |sent| && k != j && sent[k].id == sent[j].id :: k < j && sent[k].Forward?
  {
    HistoryPlace(sent, j);
    forall k | 0 <= k < |sent| && k != j && sent[k].id == sent[j].id
      ensures k < j && sent[k].Forward?
    {
      HistoryPlace(sent, k);
      if k < j {
        HistoryGrows(sent, k, j);
      } else {
        HistoryGrows(sent, j, k);
      }
    }
  }

  /** Every send that is not a forwarding ends its request: it goes to the descriptor the request
      came from, the request is not in the list after it, nothing is sent for it later, and
      nothing but one forwarding was sent for it before. */
  lemma EndIsUnique(polls: seq<PollInput>, j: nat)
    requires Monotone(polls) && j < |Run(polls).sent| && !Run(polls).sent[j].Forward?
    ensures var s := Run(polls);
            var e := s.sent[j];
            && e.id < |s.accepted| && e.fd == s.accepted[e.id].fd
            && !Pending(s.requests, e.id)
            && (forall k | 0 <= k < |s.sent| && k != j && s.sent[k].id == e.id :: k < j && s.sent[k].Forward?)
  {
    var s := Run(polls);
    RunSound(polls);
    EndedNotPending(s, LastTime(polls), j);
    OnlyEnd(s.sent, j, s.accepted[s.sent[j].id]);
  }

  /** An answer or a timeout is only ever sent for a request that was forwarded before. */
  lemma EndedAfterForward(polls: seq<PollInput>, j: nat) returns (i: nat)
    requires Monotone(polls) && j < |Run(polls).sent|
    requires Run(polls).sent[j].Answer? || Run(polls).sent[j].TimedOut?
    ensures var s := Run(polls);
            && s.sent[j].id < |s.accepted|
            && i < j && s.sent[i].id == s.sent[j].id && IsForward(s.sent[i], s.accepted[s.sent[j].id])
  {
    var s := Run(polls);
    var id := s.sent[j].id;
    RunSound(polls);
    HistoryPlace(s.sent, j);
    EndedNotPending(s, LastTime(polls), j);
    i := HistoryMember(s.sent[..j], id, 0);
  }

  // ---------------------------------------------------------------- bounded waiting

  /** A request is settled by the first poll three seconds or more after the one it came in. */
  lemma SettledInTime(polls: seq<PollInput>, id: nat)
    requires Monotone(polls) && id < |Run(polls).accepted|
    requires LastTime(polls) >= Run(polls).accepted[id].tsCreate + 3
    ensures var s := Run(polls);
            !Pending(s.requests, id) && FinishedHistory(History(s.sent, id), s.accepted[id])
  {
    var s := Run(polls);
    RunSound(polls);
    forall k | 0 <= k < |s.requests|
      ensures s.requests[k].id != id
    {
      assert Placed(s.requests[k], s.stations, LastTime(polls)) && Settled(s.requests[k], LastTime(polls));
      assert SameRequest(s.requests[k], s.accepted[s.requests[k].id]);
    }
  }

  /** Between polls every pending request has been forwarded, is not overdue, and its source
      station is registered and was alive when the request was sent. */
  lemma PendingIsCurrent(polls: seq<PollInput>, k: nat)
    requires Monotone(polls) && k < |Run(polls).requests|
    ensures var s, t := Run(polls), LastTime(polls);
            var r := s.requests[k];
            && r.waiting && r.tsSend <= t < r.tsSend + 3
            && AliveSince(s.stations, r.pac.srcid, r.tsSend)
            && s.responses == [] && UniqueStations(s.stations)
  {
    var s, t := Run(polls), LastTime(polls);
    RunSound(polls);
    assert Placed(s.requests[k], s.stations, t) && Settled(s.requests[k], t);
    assert SameRequest(s.requests[k], s.accepted[s.requests[k].id]);
  }

  // ---------------------------------------------------------------- order of the list

  /** The list is sorted, newest send time first. */
  lemma SortedBySendTime(s: State, now: nat, k: nat, l: nat)
    requires Sound(s, now) && k < l < |s.requests|
    ensures s.requests[k].tsSend >= s.requests[l].tsSend
  {
    var a, b := s.requests[k], s.requests[l];
    assert Placed(a, s.stations, now) && Placed(b, s.stations, now) && Settled(a, now) && Settled(b, now);
    assert SameRequest(a, s.accepted[a.id]) && SameRequest(b, s.accepted[b.id]);
    assert s.accepted[b.id].tsCreate <= s.accepted[a.id].tsCreate;
  }

  /** Where the overdue requests start. */
  function FirstExpired(requests: seq<ApiRequest>, now: nat): (m: nat)
    ensures m <= |requests|
    ensures forall k | 0 <= k < m :: !Expired(requests[k], now)
    ensures m < |requests| ==> Expired(requests[m], now)
  {
    if requests == [] || Expired(requests[0], now) then 0 else 1 + FirstExpired(requests[1..], now)
  }

  lemma ExpiredTail(s: State, before: nat, now: nat)
    requires Sound(s, before) && before <= now
    ensures forall k | 0 <= k < |s.requests| ::
              s.requests[k].waiting && (Expired(s.requests[k], now) <==> FirstExpired(s.requests, now) <= k)
  {
    var m := FirstExpired(s.requests, now);
    forall k | 0 <= k < |s.requests|
      ensures s.requests[k].waiting && (Expired(s.requests[k], now) <==> m <= k)
    {
      assert Settled(s.requests[k], before);
      if m < k {
        SortedBySendTime(s, before, m, k);
      }
    }
  }

  /** The timeouts of some requests, in order. */
  function TimeoutsOf(requests: seq<ApiRequest>): (es: seq<Send>)
    ensures |es| == |requests| && forall i | 0 <= i < |es| :: es[i] == TimedOut(requests[i].id, requests[i].fd)
  {
    seq(|requests|, i requires 0 <= i < |requests| => TimedOut(requests[i].id, requests[i].fd))
  }

  /** The request pass of one poll, whatever has arrived: of the requests pending before it, those
      that are overdue form a tail of the list; they leave it with one timeout each, in list order,
      and the others stay. In front of them stand requests that arrived in this poll, for which
      there were no timeouts. */
  ghost predicate TailTimedOut(s: State, t: State, m: nat, j: nat, news: seq<Send>)
    requires m <= |s.requests|
  {
    && j <= |t.requests| && t.requests[j..] == s.requests[..m]
    && (forall i | 0 <= i < j :: t.requests[i].id >= |s.accepted|)
    && t.sent == s.sent + news + TimeoutsOf(s.requests[m..])
    && (forall i | 0 <= i < |news| :: !news[i].TimedOut? && news[i].id >= |s.accepted|)
  }

  /** New requests in front of old ones. */
  ghost predicate NewInFront(s: State, s0: State, news: seq<ApiRequest>) {
    && s0.requests == news + s.requests && s0.sent == s.sent && |s0.accepted| >= |s.accepted|
    && forall i | 0 <= i < |news| :: !news[i].waiting && news[i].id >= |s.accepted|
  }

  lemma {:induction false} AcceptAllInFront(s: State, s1: State, fd: int, pacs: seq<Packet>, now: nat, news: seq<ApiRequest>)
    returns (all: seq<ApiRequest>)
    requires NewInFront(s, s1, news)
    ensures NewInFront(s, AcceptAll(s1, fd, pacs, now), all)
    decreases |pacs|
  {
    all := news;
    if pacs != [] {
      var s2 := Accept(s1, fd, pacs[0], now);
      if pacs[0].leader == REQUEST_LEADER {
        all := [s2.requests[0]] + news;
        assert s2.requests == [s2.requests[0]] + (news + s.requests) == all + s.requests;
      }
      all := AcceptAllInFront(s, s2, fd, pacs[1..], now, all);
    }
  }

  lemma {:induction false} AcceptArrivalsInFront(s: State, s1: State, arrivals: seq<Arrival>, now: nat, news: seq<ApiRequest>)
    returns (all: seq<ApiRequest>)
    requires NewInFront(s, s1, news)
    ensures NewInFront(s, AcceptArrivals(s1, arrivals, now), all)
    decreases |arrivals|
  {
    all := news;
    if arrivals != [] {
      var a := arrivals[0];
      all := AcceptAllInFront(s, s1, a.fd, a.packets, now, news);
      all := AcceptArrivalsInFront(s, AcceptAll(s1, a.fd, a.packets, now), arrivals[1..], now, all);
    }
  }

  /** Where the pass has come to place k, the n first being new and the others the old list. */
  ghost predicate Midway(s: State, u: State, k: nat, n: nat, news: seq<Send>) {
    && k <= n <= |u.requests| && u.requests[n..] == s.requests
    && (forall i | 0 <= i < n :: u.requests[i].id >= |s.accepted|)
    && (forall i | k <= i < n :: !u.requests[i].waiting)
    && u.sent == s.sent + news
    && (forall i | 0 <= i < |news| :: !news[i].TimedOut? && news[i].id >= |s.accepted|)
  }

  lemma MidwayStep(s: State, u: State, k: nat, n: nat, news: seq<Send>, now: nat) returns (k': nat, n': nat, news': seq<Send>)
    requires Midway(s, u, k, n, news) && k < n
    ensures var t := HandleRequestAt(u, k, now);
            && k' == (if |t.requests| == |u.requests| then k + 1 else k) && n' - k' < n - k
            && Midway(s, t, k', n', news')
  {
    var t := HandleRequestAt(u, k, now);
    news' := news + [t.sent[|u.sent|]];
    assert t.sent == u.sent + [t.sent[|u.sent|]];
    if |t.requests| == |u.requests| {
      k', n' := k + 1, n;
      assert t.requests[n..] == u.requests[n..];
    } else {
      k', n' := k, n - 1;
      assert t.requests[n - 1..] == u.requests[n..];
    }
  }

  lemma {:induction false} PassOverNew(s: State, u: State, k: nat, n: nat, m: nat, news: seq<Send>, now: nat)
    returns (j: nat, all: seq<Send>)
    requires Midway(s, u, k, n, news) && m <= |s.requests|
    requires forall l | 0 <= l < |s.requests| :: s.requests[l].waiting && (Expired(s.requests[l], now) <==> m <= l)
    ensures TailTimedOut(s, HandleRequestsFrom(u, k, now), m, j, all)
    decreases n - k
  {
    if k < n {
      var k', n', news' := MidwayStep(s, u, k, n, news, now);
      j, all := PassOverNew(s, HandleRequestAt(u, k, now), k', n', m, news', now);
    } else {
      j, all := n, news;
      PassOverOld(s, u, n, m, news, now);
    }
  }

  lemma PassOverOld(s: State, u: State, n: nat, m: nat, news: seq<Send>, now: nat)
    requires Midway(s, u, n, n, news) && m <= |s.requests|
    requires forall l | 0 <= l < |s.requests| :: s.requests[l].waiting && (Expired(s.requests[l], now) <==> m <= l)
    ensures TailTimedOut(s, HandleRequestsFrom(u, n, now), m, n, news)
  {
    var k := n + m;
    forall l | n <= l < |u.requests|
      ensures u.requests[l].waiting && (Expired(u.requests[l], now) <==> k <= l)
    {
      assert u.requests[l] == s.requests[l - n];
    }
    DropTail(u, n, k, now);
    SplitTwice(u.requests, n, s.requests, m, k);
  }

  lemma SplitTwice(a: seq<ApiRequest>, n: nat, b: seq<ApiRequest>, m: nat, k: nat)
    requires n <= |a| && a[n..] == b && m <= |b| && k == n + m
    ensures a[..k][n..] == b[..m] && a[k..] == b[m..]
  {
  }

  /** A poll times out exactly a tail segment of what was pending, whatever arrives with it. */
  lemma TimeoutsAreATail(s: State, before: nat, arrivals: seq<Arrival>, now: nat) returns (j: nat, news: seq<Send>)
    requires Sound(s, before) && before <= now
    ensures TailTimedOut(s, HandleRequestsFrom(AcceptArrivals(s, arrivals, now), 0, now), FirstExpired(s.requests, now), j, news)
  {
    assert [] + s.requests == s.requests && s.sent + [] == s.sent;
    var first := AcceptArrivalsInFront(s, s, arrivals, now, []);
    ExpiredTail(s, before, now);
    j, news := PassOverNew(s, AcceptArrivals(s, arrivals, now), 0, |first|, FirstExpired(s.requests, now), [], now);
  }

  lemma TimeoutsNext(sent: seq<Send>, requests: seq<ApiRequest>, m: nat)
    requires m < |requests|
    ensures sent + TimeoutsOf(requests[m..])
         == sent + [TimedOut(requests[m].id, requests[m].fd)] + TimeoutsOf(requests[m + 1..])
  {
    assert TimeoutsOf(requests[m..]) == [TimedOut(requests[m].id, requests[m].fd)] + TimeoutsOf(requests[m + 1..]);
  }

  /** From place k on: the first m requests stay, the others leave with their timeouts. */
  lemma {:induction false} DropTail(s: State, k: nat, m: nat, now: nat)
    requires k <= m <= |s.requests|
    requires forall l | k <= l < m :: s.requests[l].waiting && !Expired(s.requests[l], now)
    requires forall l | m <= l < |s.requests| :: Expired(s.requests[l], now)
    ensures HandleRequestsFrom(s, k, now).requests == s.requests[..m]
    ensures HandleRequestsFrom(s, k, now).sent == s.sent + TimeoutsOf(s.requests[m..])
    decreases |s.requests| - k
  {
    if k < |s.requests| {
      var t := HandleRequestAt(s, k, now);
      if k < m {
        DropTail(t, k + 1, m, now);
      } else {
        DropTail(t, k, m, now);
        assert t.requests[..m] == s.requests[..m] && t.requests[m..] == s.requests[m + 1..];
        TimeoutsNext(s.sent, s.requests, m);
      }
    } else {
      assert s.requests[..m] == s.requests;
    }
  }

  // ---------------------------------------------------------------- responses

  /** A response consumes at most one request: none if nothing matches, and otherwise the most
      recently accepted of the matching ones, to whose origin it is relayed unchanged. */
  lemma ResponseConsumesNewestMatch(s: State, now: nat)
    requires Life(s.requests, s.accepted, s.sent) && s.responses != []
    ensures var t, pac := HandleResponse(s, now), s.responses[0].pac;
            if forall k | 0 <= k < |s.requests| :: !Matches(s.requests[k], pac) then
              t.requests == s.requests && t.sent == s.sent
            else
              exists k | 0 <= k < |s.requests| ::
                && Matches(s.requests[k], pac)
                && (forall l | 0 <= l < |s.requests| && Matches(s.requests[l], pac) :: s.requests[l].id <= s.requests[k].id)
                && t.requests == Without(s.requests, k)
                && t.sent == s.sent + [Answer(s.requests[k].id, s.requests[k].fd, pac.raw)]
  {
    var pac := s.responses[0].pac;
    var k := FirstMatch(s.requests, pac);
    if k < |s.requests| {
      assert Matches(s.requests[k], pac);
      forall l | 0 <= l < |s.requests| && Matches(s.requests[l], pac)
        ensures s.requests[l].id <= s.requests[k].id
      {
        assert k <= l;
      }
    }
  }

  // ---------------------------------------------------------------- for ever after

  lemma {:induction false} RunGrows(polls: seq<PollInput>, n: nat)
    requires Monotone(polls) && n <= |polls|
    ensures Run(polls[..n]).sent <= Run(polls).sent && Run(polls[..n]).accepted <= Run(polls).accepted
    decreases |polls|
  {
    if n == |polls| {
      assert polls[..n] == polls;
    } else {
      var before, last := polls[..|polls| - 1], polls[|polls| - 1];
      RunSound(before);
      PollKeeps(Run(before), LastTime(before), last.arrivals, last.now);
      RunGrows(before, n);
      assert before[..n] == polls[..n];
    }
  }

  /** Once a request has met its end it is never pending again, and its history stays as it is. */
  lemma FinishedStays(polls: seq<PollInput>, n: nat, id: nat)
    requires Monotone(polls) && n <= |polls|
    requires id < |Run(polls[..n]).accepted| && !Pending(Run(polls[..n]).requests, id)
    ensures !Pending(Run(polls).requests, id)
    ensures History(Run(polls).sent, id) == History(Run(polls[..n]).sent, id)
  {
    var s, t := Run(polls[..n]), Run(polls);
    RunSound(polls[..n]);
    RunSound(polls);
    RunGrows(polls, n);
    var h, h' := History(s.sent, id), History(t.sent, id);
    assert t.sent[..|s.sent|] == s.sent;
    HistoryPrefix(t.sent, |s.sent|, id);
    assert FinishedHistory(h, s.accepted[id]) && h <= h';
    forall k | 0 <= k < |t.requests|
      ensures t.requests[k].id != id
    {
      assert PendingHistory(History(t.sent, t.requests[k].id), t.requests[k]);
    }
    assert FinishedHistory(h', t.accepted[id]);
  }

  // ---------------------------------------------------------------- queues

  function PacsOf<T>(xs: seq<T>, pac: T -> Packet): (p: seq<Packet>)
    ensures |p| == |xs| && forall i | 0 <= i < |xs| :: p[i] == pac(xs[i])
  {
    seq(|xs|, i requires 0 <= i < |xs| => pac(xs[i]))
  }

  function RequestPac(r: ApiRequest): Packet {
    r.pac
  }

  function ResponsePac(r: ApiResponse): Packet {
    r.pac
  }

  function TopicPac(m: TopicMsg): Packet {
    m.pac
  }

  predicate IsRequestLeader(c: byte) {
    c == REQUEST_LEADER
  }

  predicate IsResponseLeader(c: byte) {
    c == RESPONSE_LEADER
  }

  /** The packets of one kind, last one first. */
  function Latest(pacs: seq<Packet>, kind: byte -> bool): seq<Packet> {
    if pacs == [] then []
    else Latest(pacs[1..], kind) + One(pacs[0], kind)
  }

  function One(p: Packet, kind: byte -> bool): seq<Packet> {
    if kind(p.leader) then [p] else []
  }

  lemma Prepended(one: seq<Packet>, rest: seq<Packet>, all: seq<Packet>, more: seq<Packet>)
    requires all == one + rest
    ensures more + all == more + one + rest
  {
  }

  lemma QueuesTakeOne(s: State, fd: int, p: Packet, now: nat)
    ensures var t := Accept(s, fd, p, now);
            && PacsOf(t.requests, RequestPac) == One(p, IsRequestLeader) + PacsOf(s.requests, RequestPac)
            && PacsOf(t.responses, ResponsePac) == One(p, IsResponseLeader) + PacsOf(s.responses, ResponsePac)
            && PacsOf(t.topicMsgs, TopicPac) == One(p, IsSubPubLeader) + PacsOf(s.topicMsgs, TopicPac)
  {
    var t := Accept(s, fd, p, now);
    assert One(p, IsRequestLeader) == if t.requests == s.requests then [] else [p];
    assert One(p, IsResponseLeader) == if t.responses == s.responses then [] else [p];
    assert One(p, IsSubPubLeader) == if t.topicMsgs == s.topicMsgs then [] else [p];
  }

  /** Each queue of the bus receives the packets of its kind, newest first, in front of what it
      held. */
  lemma {:induction false} QueuesNewestFirst(s: State, fd: int, pacs: seq<Packet>, now: nat)
    ensures var t := AcceptAll(s, fd, pacs, now);
            && PacsOf(t.requests, RequestPac) == Latest(pacs, IsRequestLeader) + PacsOf(s.requests, RequestPac)
            && PacsOf(t.responses, ResponsePac) == Latest(pacs, IsResponseLeader) + PacsOf(s.responses, ResponsePac)
            && PacsOf(t.topicMsgs, TopicPac) == Latest(pacs, IsSubPubLeader) + PacsOf(s.topicMsgs, TopicPac)
    decreases |pacs|
  {
    if pacs != [] {
      var p, rest := pacs[0], pacs[1..];
      var a := Accept(s, fd, p, now);
      QueuesTakeOne(s, fd, p, now);
      QueuesNewestFirst(a, fd, rest, now);
      Prepended(One(p, IsRequestLeader), PacsOf(s.requests, RequestPac), PacsOf(a.requests, RequestPac), Latest(rest, IsRequestLeader));
      Prepended(One(p, IsResponseLeader), PacsOf(s.responses, ResponsePac), PacsOf(a.responses, ResponsePac), Latest(rest, IsResponseLeader));
      Prepended(One(p, IsSubPubLeader), PacsOf(s.topicMsgs, TopicPac), PacsOf(a.topicMsgs, TopicPac), Latest(rest, IsSubPubLeader));
    }
  }
}
