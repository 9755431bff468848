/** The life of a request: over every run, each accepted request is pending or has met exactly
    one end, and the trace of sends shows for it nothing, a forwarding, or a forwarding and one
    answer or timeout, or one "not found". */
module BusLife {
  import opened Sequences
  import opened BusModel

  /** The sends made on behalf of one request, in order. */
  function History(sent: seq<Send>, id: nat): seq<Send> {
    if sent == [] then []
    else
      var h := History(sent[..|sent| - 1], id);
      if sent[|sent| - 1].id == id then h + [sent[|sent| - 1]] else h
  }

  lemma HistoryAppend(sent: seq<Send>, e: Send, id: nat)
    ensures History(sent + [e], id) == History(sent, id) + if e.id == id then [e] else []
  {
    assert (sent + [e])[..|sent|] == sent;
  }

  predicate IsForward(e: Send, origin: ApiRequest) {
    e.Forward? && e.bytes == origin.pac.raw
  }

  /** The send that ends a request goes to the descriptor it came from. */
  predicate EndsForwarded(e: Send, origin: ApiRequest) {
    (e.Answer? || e.TimedOut?) && e.fd == origin.fd
  }

  /** The history of a request that is still in the list. */
  predicate PendingHistory(h: seq<Send>, r: ApiRequest) {
    if r.waiting then |h| == 1 && IsForward(h[0], r) else h == []
  }

  /** The history of a request that has left the list. */
  predicate FinishedHistory(h: seq<Send>, origin: ApiRequest) {
    || (|h| == 1 && h[0].NotFound? && h[0].fd == origin.fd)
    || (|h| == 2 && IsForward(h[0], origin) && EndsForwarded(h[1], origin))
  }

  /** A pending request is the accepted one, up to its state and send time. */
  predicate SameRequest(r: ApiRequest, origin: ApiRequest) {
    r.(waiting := false, tsSend := 0) == origin
  }

  predicate Pending(requests: seq<ApiRequest>, id: nat) {
    exists k | 0 <= k < |requests| :: requests[k].id == id
  }

  /** Newest first. */
  predicate NewestFirst(requests: seq<ApiRequest>) {
    forall k, l | 0 <= k < l < |requests| :: requests[k].id > requests[l].id
  }

  function Answers(sent: seq<Send>): nat {
    if sent == [] then 0
    else Answers(sent[..|sent| - 1]) + if sent[|sent| - 1].Answer? then 1 else 0
  }

  function Timeouts(sent: seq<Send>): nat {
    if sent == [] then 0
    else Timeouts(sent[..|sent| - 1]) + if sent[|sent| - 1].TimedOut? then 1 else 0
  }

  function Misses(sent: seq<Send>): nat {
    if sent == [] then 0
    else Misses(sent[..|sent| - 1]) + if sent[|sent| - 1].NotFound? then 1 else 0
  }

  lemma CountsAppend(sent: seq<Send>, e: Send)
    ensures Answers(sent + [e]) == Answers(sent) + if e.Answer? then 1 else 0
    ensures Timeouts(sent + [e]) == Timeouts(sent) + if e.TimedOut? then 1 else 0
    ensures Misses(sent + [e]) == Misses(sent) + if e.NotFound? then 1 else 0
  {
    assert (sent + [e])[..|sent|] == sent;
  }

  predicate Recorded(accepted: seq<ApiRequest>) {
    forall i | 0 <= i < |accepted| ::
      accepted[i].id == i && !accepted[i].waiting && accepted[i].tsSend == 0
  }

  /** What the list, the record of accepted requests and the trace have to do with each other. */
  ghost predicate Life(requests: seq<ApiRequest>, accepted: seq<ApiRequest>, sent: seq<Send>) {
    && Recorded(accepted)
    && NewestFirst(requests)
    && (forall k | 0 <= k < |requests| ::
          && requests[k].id < |accepted|
          && SameRequest(requests[k], accepted[requests[k].id])
          && PendingHistory(History(sent, requests[k].id), requests[k]))
    && (forall id | 0 <= id < |accepted| && !Pending(requests, id) ::
          FinishedHistory(History(sent, id), accepted[id]))
    && (forall i | 0 <= i < |sent| :: sent[i].id < |accepted|)
    && |accepted| == |requests| + Answers(sent) + Timeouts(sent) + Misses(sent)
  }

  lemma {:induction false} NoHistory(sent: seq<Send>, id: nat)
    requires forall i | 0 <= i < |sent| :: sent[i].id < id
    ensures History(sent, id) == []
  {
    if sent != [] {
      NoHistory(sent[..|sent| - 1], id);
    }
  }

  // ---------------------------------------------------------------- the four moves

  /** A new request enters at the head. */
  lemma LifeAccept(requests: seq<ApiRequest>, accepted: seq<ApiRequest>, sent: seq<Send>, r: ApiRequest)
    requires Life(requests, accepted, sent)
    requires r.id == |accepted| && !r.waiting && r.tsSend == 0
    ensures Life([r] + requests, accepted + [r], sent)
  {
    var rs, acc := [r] + requests, accepted + [r];
    NoHistory(sent, r.id);
    forall id | 0 <= id < |acc| && !Pending(rs, id)
      ensures FinishedHistory(History(sent, id), acc[id])
    {
      assert rs[0].id == r.id;
      forall k | 0 <= k < |requests|
        ensures requests[k].id != id
      {
        assert rs[k + 1] == requests[k];
      }
    }
  }

  /** A request is forwarded. */
  lemma LifeForward(requests: seq<ApiRequest>, accepted: seq<ApiRequest>, sent: seq<Send>, k: nat, fd: int, now: nat)
    requires Life(requests, accepted, sent)
    requires k < |requests| && !requests[k].waiting
    ensures var r := requests[k];
            Life(requests[k := r.(waiting := true, tsSend := now)], accepted, sent + [Forward(r.id, fd, r.pac.raw)])
  {
    var r := requests[k];
    var rs := requests[k := r.(waiting := true, tsSend := now)];
    var e := Forward(r.id, fd, r.pac.raw);
    CountsAppend(sent, e);
    forall l | 0 <= l < |rs|
      ensures PendingHistory(History(sent + [e], rs[l].id), rs[l])
    {
      HistoryAppend(sent, e, rs[l].id);
    }
    forall id | 0 <= id < |accepted| && !Pending(rs, id)
      ensures FinishedHistory(History(sent + [e], id), accepted[id])
    {
      HistoryAppend(sent, e, id);
      assert rs[k].id != id;
      forall l | 0 <= l < |requests|
        ensures requests[l].id != id
      {
        assert rs[l].id != id;
      }
    }
  }

  lemma EndKeepsPending(requests: seq<ApiRequest>, accepted: seq<ApiRequest>, sent: seq<Send>, k: nat, e: Send, l: nat)
    requires Life(requests, accepted, sent) && k < |requests| && e.id == requests[k].id && l < |Without(requests, k)|
    ensures var r := Without(requests, k)[l];
            && r.id < |accepted| && SameRequest(r, accepted[r.id]) && PendingHistory(History(sent + [e], r.id), r)
  {
    var l' := if l < k then l else l + 1;
    assert Without(requests, k)[l] == requests[l'];
    assert requests[l'].id != e.id;
    HistoryAppend(sent, e, requests[l'].id);
  }

  lemma EndFinishes(requests: seq<ApiRequest>, accepted: seq<ApiRequest>, sent: seq<Send>, k: nat, e: Send, id: nat)
    requires Life(requests, accepted, sent) && k < |requests| && e.id == requests[k].id && e.fd == requests[k].fd
    requires if requests[k].waiting then e.Answer? || e.TimedOut? else e.NotFound?
    requires id < |accepted| && !Pending(Without(requests, k), id)
    ensures FinishedHistory(History(sent + [e], id), accepted[id])
  {
    HistoryAppend(sent, e, id);
    if id == e.id {
      assert SameRequest(requests[k], accepted[id]) && PendingHistory(History(sent, id), requests[k]);
    } else {
      forall l | 0 <= l < |requests|
        ensures requests[l].id != id
      {
        if l != k {
          assert Without(requests, k)[if l < k then l else l - 1] == requests[l];
        }
      }
    }
  }

  /** A request leaves the list with the send that ends it. */
  lemma LifeEnd(requests: seq<ApiRequest>, accepted: seq<ApiRequest>, sent: seq<Send>, k: nat, e: Send)
    requires Life(requests, accepted, sent)
    requires k < |requests| && e.id == requests[k].id && e.fd == requests[k].fd
    requires if requests[k].waiting then e.Answer? || e.TimedOut? else e.NotFound?
    ensures Life(Without(requests, k), accepted, sent + [e])
  {
    var rs := Without(requests, k);
    CountsAppend(sent, e);
    forall l | 0 <= l < |rs|
      ensures rs[l].id < |accepted| && SameRequest(rs[l], accepted[rs[l].id])
      ensures PendingHistory(History(sent + [e], rs[l].id), rs[l])
    {
      EndKeepsPending(requests, accepted, sent, k, e, l);
    }
    forall id | 0 <= id < |accepted| && !Pending(rs, id)
      ensures FinishedHistory(History(sent + [e], id), accepted[id])
    {
      EndFinishes(requests, accepted, sent, k, e, id);
    }
  }
}
