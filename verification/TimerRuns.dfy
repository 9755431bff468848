/** What passes do to the list of timers: who stays, what handlers are given, and when a started timer
    fires over any number of passes. */
module TimerRuns {
  import opened Options
  import opened TimerModel

  predicate AllRepeat(ts: seq<Timer>) {
    forall i | 0 <= i < |ts| :: Repeats(ts[i])
  }

  /** A timer that is not due stays as it is, between what the pass leaves of those before it and of
      those behind it. */
  lemma NotDueStays(ts: seq<Timer>, i: nat, now: Timeval, h: Handler)
    requires i < |ts| && AllRepeat(ts) && !Due(ts[i], now)
    ensures HandledAll(ts, now, h) == HandledAll(ts[..i], now, h) + [ts[i]] + HandledAll(ts[i + 1..], now, h)
  {
    HandledAlone(ts, i, now, h);
  }

  /** The timer that a handler is given: the one that fired, with its deadline unset, or moved on by
      the least number of repetitions that reaches now. */
  ghost predicate FiredAs(t: Timer, given: Timer, now: Timeval) {
    && given.id == t.id && given.repeat == t.repeat
    && if IsSet(t.repeat) then
         exists k: nat :: CaughtUp(Micros(t.timeout), Micros(t.repeat), Micros(now), Micros(given.timeout), k)
       else given.timeout == ZERO
  }

  function Left(t: Option<Timer>): seq<Timer> {
    match t
    case None => []
    case Some(left) => [left]
  }

  /** In place of a timer that is due stands what its handler leaves. */
  lemma DueIsHandled(ts: seq<Timer>, i: nat, now: Timeval, h: Handler) returns (given: Timer)
    requires i < |ts| && Carried(ts) && Normal(now) && Due(ts[i], now)
    ensures FiredAs(ts[i], given, now)
    ensures HandledAll(ts, now, h) == HandledAll(ts[..i], now, h) + Left(h(given)) + HandledAll(ts[i + 1..], now, h)
  {
    var t := ts[i];
    given := t.(timeout := Moved(t, now));
    HandledAlone(ts, i, now, h);
    if IsSet(t.repeat) {
      var _ := CatchUpIsLeast(t.timeout, t.repeat, now);
    }
  }

  /** A pass at which nothing is due changes nothing and calls no handler. */
  lemma {:induction false} IdlePass(ts: seq<Timer>, now: Timeval, h: Handler)
    requires AllRepeat(ts) && forall i | 0 <= i < |ts| :: !Due(ts[i], now)
    ensures HandledAll(ts, now, h) == ts && DueIds(ts, now) == []
  {
    if ts != [] {
      IdlePass(ts[1..], now, h);
    }
  }

  /** Handlers are called in list order. */
  lemma {:induction false} FiresInOrder(a: seq<Timer>, b: seq<Timer>, now: Timeval)
    ensures DueIds(a + b, now) == DueIds(a, now) + DueIds(b, now)
  {
    if a == [] {
      assert a + b == b;
    } else {
      assert (a + b)[1..] == a[1..] + b;
      FiresInOrder(a[1..], b, now);
    }
  }

  // ---------------------------------------------------------------- several passes

  /** Handlers leave a timer its identity and a carried repetition. */
  ghost predicate Decent(h: Handler) {
    forall t :: h(t).Some? ==> h(t).value.id == t.id && Repeats(h(t).value)
  }

  predicate Has(ts: seq<Timer>, id: nat) {
    exists i | 0 <= i < |ts| :: ts[i].id == id
  }

  lemma HandledOne(t: Timer, now: Timeval, h: Handler)
    requires Repeats(t) && Decent(h)
    ensures var left := Handled(t, now, h); |left| <= 1 && forall i | 0 <= i < |left| :: left[i].id == t.id && Repeats(left[i])
  {
  }

  /** A pass leaves only timers that were there, each at most once. */
  lemma {:induction false} HandledIds(ts: seq<Timer>, now: Timeval, h: Handler)
    requires AllRepeat(ts) && Decent(h)
    ensures var left := HandledAll(ts, now, h);
            && AllRepeat(left) && (forall i | 0 <= i < |left| :: Has(ts, left[i].id))
            && (DistinctIds(ts) ==> DistinctIds(left))
  {
    if ts != [] {
      var first, rest := Handled(ts[0], now, h), HandledAll(ts[1..], now, h);
      var left := first + rest;
      HandledOne(ts[0], now, h);
      HandledIds(ts[1..], now, h);
      forall i | 0 <= i < |left|
        ensures Repeats(left[i]) && Has(ts, left[i].id)
      {
        if i < |first| {
          assert ts[0].id == left[i].id;
        } else {
          HasMore(ts, rest[i - |first|].id);
        }
      }
      if DistinctIds(ts) {
        forall i | 0 <= i < |rest|
          ensures rest[i].id != ts[0].id
        {
          var j :| 0 <= j < |ts[1..]| && ts[1..][j].id == rest[i].id;
          assert ts[j + 1].id == rest[i].id;
        }
        DistinctJoin(ts[0].id, first, rest);
      }
    }
  }

  lemma HasMore(ts: seq<Timer>, id: nat)
    requires ts != [] && Has(ts[1..], id)
    ensures Has(ts, id)
  {
    var j :| 0 <= j < |ts[1..]| && ts[1..][j].id == id;
    assert ts[j + 1].id == id;
  }

  lemma DistinctJoin(id: nat, first: seq<Timer>, rest: seq<Timer>)
    requires |first| <= 1 && (forall i | 0 <= i < |first| :: first[i].id == id)
    requires DistinctIds(rest) && forall i | 0 <= i < |rest| :: rest[i].id != id
    ensures DistinctIds(first + rest)
  {
  }

  /** The list after passes at these times. */
  ghost function AfterPasses(ts: seq<Timer>, clocks: seq<Timeval>, h: Handler): (left: seq<Timer>)
    requires AllRepeat(ts) && Decent(h)
    ensures AllRepeat(left)
    decreases |clocks|
  {
    if clocks == [] then ts
    else
      HandledIds(ts, clocks[0], h);
      AfterPasses(HandledAll(ts, clocks[0], h), clocks[1..], h)
  }

  /** Pass number n calls the timer's handler. */
  ghost predicate Fires(ts: seq<Timer>, clocks: seq<Timeval>, h: Handler, n: nat, id: nat)
    requires AllRepeat(ts) && Decent(h) && n < |clocks|
  {
    id in DueIds(AfterPasses(ts, clocks[..n], h), clocks[n])
  }

  lemma FiresIffDue(ts: seq<Timer>, now: Timeval, t: Timer)
    requires DistinctIds(ts) && t in ts
    ensures t.id in DueIds(ts, now) <==> Due(t, now)
  {
    var i :| 0 <= i < |ts| && ts[i] == t;
    FiresExactlyOnce(ts, now);
    assert multiset(DueIds(ts, now))[ts[i].id] == if Due(ts[i], now) then 1 else 0;
  }

  /** As long as no pass finds it due, a timer stays in the list unchanged; so the first pass that
      finds it due fires it, and none before. */
  lemma {:induction false} FiresWhenDue(ts: seq<Timer>, clocks: seq<Timeval>, h: Handler, n: nat, t: Timer)
    requires AllRepeat(ts) && Decent(h) && DistinctIds(ts) && t in ts
    requires n < |clocks| && forall k | 0 <= k < n :: !Due(t, clocks[k])
    ensures t in AfterPasses(ts, clocks[..n], h)
    ensures Fires(ts, clocks, h, n, t.id) <==> Due(t, clocks[n])
    decreases |clocks|
  {
    if n == 0 {
      assert clocks[..0] == [];
      FiresIffDue(ts, clocks[0], t);
    } else {
      var i :| 0 <= i < |ts| && ts[i] == t;
      NotDueStays(ts, i, clocks[0], h);
      HandledIds(ts, clocks[0], h);
      PassesTail(clocks, n, n - 1);
      FiresWhenDue(HandledAll(ts, clocks[0], h), clocks[1..], h, n - 1, t);
    }
  }

  lemma PassesTail(clocks: seq<Timeval>, n: nat, n': nat)
    requires n == n' + 1 < |clocks|
    ensures clocks[..n][0] == clocks[0] && clocks[..n][1..] == clocks[1..][..n'] && clocks[1..][n'] == clocks[n]
  {
  }

  /** A timer that is started without a carry fires in the first pass at or after its deadline, and in
      none before. */
  lemma StartedFires(ts: seq<Timer>, clocks: seq<Timeval>, h: Handler, n: nat, t: Timer, now: Timeval, timeout: nat, repeat: nat)
    requires AllRepeat(ts) && Decent(h) && DistinctIds(ts) && Start(t, now, timeout, repeat) in ts
    requires Normal(now) && IsSet(now) && now.usec + timeout % 1000 * 1000 <= 1000000
    requires n < |clocks| && forall k | 0 <= k <= n :: Normal(clocks[k])
    requires forall k | 0 <= k < n :: Micros(clocks[k]) < Micros(now) + timeout * 1000
    ensures Fires(ts, clocks, h, n, t.id) <==> Micros(now) + timeout * 1000 <= Micros(clocks[n])
  {
    var s := Start(t, now, timeout, repeat);
    StartFiresOnTimeIff(t, now, timeout, repeat);
    FiresWhenDue(ts, clocks, h, n, s);
  }
}
