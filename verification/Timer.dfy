/** Timers: deadlines as (seconds, microseconds) pairs, the catch-up of a repeating timer, one
    pass over a thread's timers and the wait it returns. */
module TimerModel {
  import opened Options
  import opened Sequences

  /** struct timeval */
  datatype Timeval = Timeval(sec: nat, usec: nat)

  const ZERO := Timeval(0, 0)

  function Micros(t: Timeval): nat {
    t.sec * 1000000 + t.usec
  }

  predicate Normal(t: Timeval) {
    t.usec < 1000000
  }

  /** timerisset */
  predicate IsSet(t: Timeval) {
    t.sec != 0 || t.usec != 0
  }

  /** timercmp(a, b, <) */
  predicate Less(a: Timeval, b: Timeval) {
    if a.sec == b.sec then a.usec < b.usec else a.sec < b.sec
  }

  /** timeradd */
  function Add(a: Timeval, b: Timeval): (c: Timeval)
    ensures Micros(c) == Micros(a) + Micros(b)
    ensures Normal(a) && Normal(b) ==> Normal(c)
    ensures IsSet(b) ==> IsSet(c)
  {
    var usec := a.usec + b.usec;
    if usec >= 1000000 then Timeval(a.sec + b.sec + 1, usec - 1000000) else Timeval(a.sec + b.sec, usec)
  }

  lemma LessIsEarlier(a: Timeval, b: Timeval)
    requires Normal(a) && Normal(b)
    ensures Less(a, b) <==> Micros(a) < Micros(b)
  {
  }

  /** The comparison tells which of two times is earlier, for every properly carried time it is
      compared with, if and only if the first one is carried too. */
  lemma ComparesRightlyIffNormal(a: Timeval)
    ensures (forall b | Normal(b) :: Less(a, b) <==> Micros(a) < Micros(b)) <==> Normal(a)
  {
    if Normal(a) {
      forall b | Normal(b)
        ensures Less(a, b) <==> Micros(a) < Micros(b)
      {
        LessIsEarlier(a, b);
      }
    } else {
      var b := Timeval(a.sec + 1, 0);
      assert Normal(b) && Less(a, b) && !(Micros(a) < Micros(b));
    }
  }

  // ---------------------------------------------------------------- one timer

  datatype Timer = Timer(id: nat, timeout: Timeval, repeat: Timeval)

  /** Milliseconds as a timeval, as timer_start splits them. */
  function FromMillis(ms: nat): (t: Timeval)
    ensures Normal(t) && Micros(t) == ms * 1000
  {
    Timeval(ms / 1000, ms % 1000 * 1000)
  }

  /** timer_start at time now. */
  function Start(t: Timer, now: Timeval, timeout: nat, repeat: nat): Timer {
    var d := FromMillis(timeout);
    t.(timeout := Timeval(now.sec + d.sec, now.usec + d.usec), repeat := FromMillis(repeat))
  }

  /** timer_start sets the exact deadline, but carries the microseconds only when there is
      nothing to carry. */
  lemma StartIsExact(t: Timer, now: Timeval, timeout: nat, repeat: nat)
    requires Normal(now)
    ensures var s := Start(t, now, timeout, repeat);
            && Micros(s.timeout) == Micros(now) + timeout * 1000
            && Micros(s.repeat) == repeat * 1000 && Normal(s.repeat)
            && (Normal(s.timeout) <==> now.usec + timeout % 1000 * 1000 < 1000000)
  {
  }

  /** A set timer whose deadline is not in the future. */
  predicate Due(t: Timer, now: Timeval) {
    IsSet(t.timeout) && !Less(now, t.timeout)
  }

  /** The do-while loop that moves a repeating timer's deadline on. */
  function CatchUp(t: Timeval, repeat: Timeval, now: Timeval): (next: Timeval)
    requires IsSet(repeat) && Normal(repeat)
    ensures IsSet(next)
    decreases if t.sec <= now.sec then now.sec - t.sec + 1 else 0, if t.usec < 1000000 then 1000000 - t.usec else 0
  {
    var next := Add(t, repeat);
    if Less(next, now) then CatchUp(next, repeat, now) else next
  }

  method CatchUpLoop(t: Timeval, repeat: Timeval, now: Timeval) returns (next: Timeval)
    requires IsSet(repeat) && Normal(repeat)
    ensures next == CatchUp(t, repeat, now)
  {
    next := Add(t, repeat);
    while Less(next, now)
      invariant CatchUp(t, repeat, now) == if Less(next, now) then CatchUp(next, repeat, now) else next
      decreases if next.sec <= now.sec then now.sec - next.sec + 1 else 0,
                if next.usec < 1000000 then 1000000 - next.usec else 0
    {
      next := Add(next, repeat);
    }
  }

  /** k repetitions on. */
  function Later(t: nat, step: nat, k: nat): nat {
    if k == 0 then t else Later(t, step, k - 1) + step
  }

  lemma {:induction false} LaterIsProduct(t: nat, step: nat, k: nat)
    ensures Later(t, step, k) == t + k * step
  {
    if k > 0 {
      LaterIsProduct(t, step, k - 1);
      assert k * step == (k - 1) * step + step;
    }
  }

  lemma {:induction false} LaterShift(t: nat, step: nat, k: nat)
    ensures Later(t + step, step, k) == Later(t, step, k + 1)
  {
    if k > 0 {
      LaterShift(t, step, k - 1);
    }
  }

  /** The new deadline is the old one plus the least positive number k of repetitions that
      reaches now; so it lies between now and one repetition later. */
  ghost predicate CaughtUp(t: nat, step: nat, now: nat, next: nat, k: nat) {
    && k >= 1 && next == Later(t, step, k)
    && now <= next <= now + step
    && forall j | 1 <= j < k :: Later(t, step, j) < now
  }

  lemma CaughtUpFirst(t: nat, step: nat, now: nat)
    requires t <= now <= t + step
    ensures CaughtUp(t, step, now, t + step, 1)
  {
  }

  lemma CaughtUpNext(t: nat, step: nat, now: nat, next: nat, k: nat)
    requires t + step < now && CaughtUp(t + step, step, now, next, k)
    ensures CaughtUp(t, step, now, next, k + 1)
  {
    LaterShift(t, step, k);
    forall j | 1 <= j < k + 1
      ensures Later(t, step, j) < now
    {
      if j > 1 {
        LaterShift(t, step, j - 1);
      }
    }
  }

  lemma {:induction false} CatchUpIsLeast(t: Timeval, repeat: Timeval, now: Timeval) returns (k: nat)
    requires IsSet(repeat) && Normal(repeat) && Normal(t) && Normal(now) && !Less(now, t)
    ensures Normal(CatchUp(t, repeat, now))
    ensures CaughtUp(Micros(t), Micros(repeat), Micros(now), Micros(CatchUp(t, repeat, now)), k)
    decreases if t.sec <= now.sec then now.sec - t.sec + 1 else 0, if t.usec < 1000000 then 1000000 - t.usec else 0
  {
    var next, step := Add(t, repeat), Micros(repeat);
    assert Less(next, now) <==> Micros(t) + step < Micros(now) by {
      LessIsEarlier(next, now);
    }
    assert Micros(t) <= Micros(now) by {
      LessIsEarlier(now, t);
    }
    if Less(next, now) {
      k := CatchUpIsLeast(next, repeat, now);
      CaughtUpNext(Micros(t), step, Micros(now), Micros(CatchUp(next, repeat, now)), k);
      k := k + 1;
    } else {
      CaughtUpFirst(Micros(t), step, Micros(now));
      k := 1;
    }
  }

  // ---------------------------------------------------------------- a pass

  /** The deadline a timer is left with when it fires. */
  function Moved(t: Timer, now: Timeval): Timeval
    requires IsSet(t.repeat) ==> Normal(t.repeat)
  {
    if !IsSet(t.repeat) then ZERO else CatchUp(t.timeout, t.repeat, now)
  }

  /** What a handler leaves of its own timer, or None when it destroys it. Handlers do not touch
      other timers. */
  type Handler = Timer -> Option<Timer>

  function Earlier(a: Timeval, b: Timeval): Timeval {
    if Less(a, b) then a else b
  }

  predicate Repeats(t: Timer) {
    IsSet(t.repeat) ==> Normal(t.repeat)
  }

  /** The deadline of a visited timer that counts for the wait, if it has one: still to come, or
      moved on. */
  function Upcoming(t: Timer, now: Timeval): Timeval
    requires Repeats(t)
  {
    if Due(t, now) then Moved(t, now) else t.timeout
  }

  /** What the handler leaves in the list. */
  function Handled(t: Timer, now: Timeval, h: Handler): seq<Timer>
    requires Repeats(t)
  {
    if !Due(t, now) then [t]
    else
      match h(t.(timeout := Moved(t, now)))
      case None => []
      case Some(left) => [left]
  }

  function HandledAll(ts: seq<Timer>, now: Timeval, h: Handler): seq<Timer>
    requires forall i | 0 <= i < |ts| :: Repeats(ts[i])
  {
    if ts == [] then [] else Handled(ts[0], now, h) + HandledAll(ts[1..], now, h)
  }

  /** The due timers, in list order. */
  function DueIds(ts: seq<Timer>, now: Timeval): seq<nat> {
    if ts == [] then [] else (if Due(ts[0], now) then [ts[0].id] else []) + DueIds(ts[1..], now)
  }

  /** A wake-up time brought forward to a deadline, if that is set and earlier. */
  function Sooner(u: Timeval, wake: Timeval): Timeval {
    if IsSet(u) then Earlier(u, wake) else wake
  }

  lemma SoonerIsEarlier(u: Timeval, wake: Timeval)
    requires Normal(u) && Normal(wake)
    ensures Normal(Sooner(u, wake)) && Micros(Sooner(u, wake)) <= Micros(wake)
    ensures IsSet(u) ==> Micros(Sooner(u, wake)) <= Micros(u)
    ensures Sooner(u, wake) == wake || (IsSet(u) && Sooner(u, wake) == u)
  {
    LessIsEarlier(u, wake);
  }

  /** The earliest of a time and the upcoming deadlines. */
  function NextWake(ts: seq<Timer>, now: Timeval, wake: Timeval): Timeval
    requires forall i | 0 <= i < |ts| :: Repeats(ts[i])
    decreases |ts|
  {
    if ts == [] then wake
    else NextWake(ts[1..], now, Sooner(Upcoming(ts[0], now), wake))
  }

  lemma {:induction false} NextWakeNormal(ts: seq<Timer>, now: Timeval, wake: Timeval)
    requires Carried(ts) && Normal(now) && Normal(wake)
    ensures Normal(NextWake(ts, now, wake))
    decreases |ts|
  {
    if ts != [] {
      UpcomingNormal(ts[0], now);
      NextWakeNormal(ts[1..], now, Sooner(Upcoming(ts[0], now), wake));
    }
  }

  /** Every deadline and repetition is properly carried. */
  predicate Carried(ts: seq<Timer>) {
    forall i | 0 <= i < |ts| :: Normal(ts[i].timeout) && Normal(ts[i].repeat)
  }

  lemma UpcomingNormal(t: Timer, now: Timeval)
    requires Normal(t.timeout) && Normal(t.repeat) && Normal(now)
    ensures Normal(Upcoming(t, now))
  {
    if Due(t, now) && IsSet(t.repeat) {
      var _ := CatchUpIsLeast(t.timeout, t.repeat, now);
    }
  }

  /** No timer's upcoming deadline is earlier than w. */
  ghost predicate NoneEarlier(ts: seq<Timer>, now: Timeval, w: Timeval)
    requires forall i | 0 <= i < |ts| :: Repeats(ts[i])
  {
    forall i | 0 <= i < |ts| :: IsSet(Upcoming(ts[i], now)) ==> Micros(w) <= Micros(Upcoming(ts[i], now))
  }

  ghost predicate IsUpcoming(ts: seq<Timer>, now: Timeval, w: Timeval)
    requires forall i | 0 <= i < |ts| :: Repeats(ts[i])
  {
    exists i | 0 <= i < |ts| :: IsSet(Upcoming(ts[i], now)) && w == Upcoming(ts[i], now)
  }

  lemma NoneEarlierMore(ts: seq<Timer>, now: Timeval, w: Timeval)
    requires ts != [] && forall i | 0 <= i < |ts| :: Repeats(ts[i])
    requires NoneEarlier(ts[1..], now, w) && (IsSet(Upcoming(ts[0], now)) ==> Micros(w) <= Micros(Upcoming(ts[0], now)))
    ensures NoneEarlier(ts, now, w)
  {
    assert forall i | 1 <= i < |ts| :: ts[i] == ts[1..][i - 1];
  }

  lemma IsUpcomingMore(ts: seq<Timer>, now: Timeval, w: Timeval)
    requires ts != [] && forall i | 0 <= i < |ts| :: Repeats(ts[i])
    requires IsUpcoming(ts[1..], now, w) || (IsSet(Upcoming(ts[0], now)) && w == Upcoming(ts[0], now))
    ensures IsUpcoming(ts, now, w)
  {
    if IsUpcoming(ts[1..], now, w) {
      var i :| 0 <= i < |ts[1..]| && IsSet(Upcoming(ts[1..][i], now)) && w == Upcoming(ts[1..][i], now);
      assert ts[i + 1] == ts[1..][i];
    }
  }

  /** The time the pass aims at is the earliest of the limit and the deadlines that are set once
      the due timers have been moved on: none is earlier, and it is one of them. */
  lemma {:induction false} NextWakeIsEarliest(ts: seq<Timer>, now: Timeval, wake: Timeval)
    requires Carried(ts) && Normal(now) && Normal(wake)
    ensures var w := NextWake(ts, now, wake);
            Micros(w) <= Micros(wake) && NoneEarlier(ts, now, w) && (w == wake || IsUpcoming(ts, now, w))
    decreases |ts|
  {
    if ts != [] {
      var u := Upcoming(ts[0], now);
      var wake' := Sooner(u, wake);
      var w := NextWake(ts[1..], now, wake');
      UpcomingNormal(ts[0], now);
      SoonerIsEarlier(u, wake);
      NextWakeIsEarliest(ts[1..], now, wake');
      NoneEarlierMore(ts, now, w);
      if w != wake {
        IsUpcomingMore(ts, now, w);
      }
    }
  }

  /** No timer's deadline is set before w. */
  ghost predicate NoneSooner(ts: seq<Timer>, w: Timeval) {
    forall i | 0 <= i < |ts| :: IsSet(ts[i].timeout) ==> Micros(w) <= Micros(ts[i].timeout)
  }

  /** A handler that is called for the timer leaves it no deadline before w. */
  predicate LeavesLater(t: Timer, now: Timeval, h: Handler, w: Timeval)
    requires Repeats(t)
  {
    Due(t, now) ==>
      match h(t.(timeout := Moved(t, now)))
      case None => true
      case Some(left) => IsSet(left.timeout) ==> Micros(w) <= Micros(left.timeout)
  }

  ghost predicate AllLeaveLater(ts: seq<Timer>, now: Timeval, h: Handler, w: Timeval)
    requires forall i | 0 <= i < |ts| :: Repeats(ts[i])
  {
    forall i | 0 <= i < |ts| :: LeavesLater(ts[i], now, h, w)
  }

  lemma NoneSoonerConcat(a: seq<Timer>, b: seq<Timer>, w: Timeval)
    ensures NoneSooner(a + b, w) <==> NoneSooner(a, w) && NoneSooner(b, w)
  {
    if NoneSooner(a + b, w) {
      assert forall i | 0 <= i < |a| :: a[i] == (a + b)[i];
      assert forall i | 0 <= i < |b| :: b[i] == (a + b)[|a| + i];
    }
  }

  lemma NoneSoonerHandled(t: Timer, now: Timeval, h: Handler, w: Timeval)
    requires Repeats(t) && (IsSet(Upcoming(t, now)) ==> Micros(w) <= Micros(Upcoming(t, now)))
    ensures NoneSooner(Handled(t, now, h), w) <==> LeavesLater(t, now, h, w)
  {
    var left := Handled(t, now, h);
    assert left != [] ==> left == [left[0]];
  }

  lemma {:induction false} NoneSoonerAfter(ts: seq<Timer>, now: Timeval, h: Handler, w: Timeval)
    requires forall i | 0 <= i < |ts| :: Repeats(ts[i])
    requires NoneEarlier(ts, now, w)
    ensures NoneSooner(HandledAll(ts, now, h), w) <==> AllLeaveLater(ts, now, h, w)
  {
    if ts != [] {
      var rest := ts[1..];
      assert forall i | 0 <= i < |rest| :: rest[i] == ts[i + 1];
      NoneSoonerAfter(rest, now, h, w);
      NoneSoonerConcat(Handled(ts[0], now, h), HandledAll(rest, now, h), w);
      NoneSoonerHandled(ts[0], now, h, w);
      assert AllLeaveLater(ts, now, h, w) <==> LeavesLater(ts[0], now, h, w) && AllLeaveLater(rest, now, h, w);
    }
  }

  /** The wait takes no account of what the handlers do: no timer that the pass leaves has a deadline
      before the wake-up time if and only if no handler leaves its own timer one. */
  lemma NothingMissedIff(ts: seq<Timer>, now: Timeval, wake: Timeval, h: Handler)
    requires Carried(ts) && Normal(now) && Normal(wake)
    ensures var w := NextWake(ts, now, wake);
            NoneSooner(HandledAll(ts, now, h), w) <==> AllLeaveLater(ts, now, h, w)
  {
    NextWakeIsEarliest(ts, now, wake);
    NoneSoonerAfter(ts, now, h, NextWake(ts, now, wake));
  }

  /** The failing inputs: a due timer whose handler starts it again with a deadline less than a
      second away. The pass waits the whole second. */
  lemma RestartIsMissed(ts: seq<Timer>, now: Timeval, h: Handler, left: Timer)
    requires |ts| == 1 && forall i | 0 <= i < |ts| :: Repeats(ts[i])
    requires Due(ts[0], now) && !IsSet(ts[0].repeat) && h(ts[0].(timeout := ZERO)) == Some(left)
    requires IsSet(left.timeout) && Micros(left.timeout) < Micros(now) + 1000000
    ensures var w := NextWake(ts, now, Timeval(now.sec + 1, now.usec));
            HandledAll(ts, now, h) == [left] && Micros(left.timeout) < Micros(w) && Wait(w, now) == 1000
  {
    assert HandledAll(ts, now, h) == Handled(ts[0], now, h) + [];
    WholeSecond(ts, now);
  }

  lemma WholeSecond(ts: seq<Timer>, now: Timeval)
    requires |ts| == 1 && forall i | 0 <= i < |ts| :: Repeats(ts[i])
    requires Due(ts[0], now) && !IsSet(ts[0].repeat)
    ensures var limit := Timeval(now.sec + 1, now.usec);
            NextWake(ts, now, limit) == limit && Wait(limit, now) == 1000
  {
    var limit := Timeval(now.sec + 1, now.usec);
    assert ts[1..] == [] && Upcoming(ts[0], now) == ZERO;
    assert NextWake(ts, now, limit) == NextWake([], now, Sooner(ZERO, limit)) == limit;
  }

  /** What a pass does to one timer does not depend on the others. */
  lemma {:induction false} HandledAlone(ts: seq<Timer>, i: nat, now: Timeval, h: Handler)
    requires i < |ts| && forall j | 0 <= j < |ts| :: Repeats(ts[j])
    ensures HandledAll(ts, now, h) == HandledAll(ts[..i], now, h) + Handled(ts[i], now, h) + HandledAll(ts[i + 1..], now, h)
  {
    if i > 0 {
      var rest := ts[1..];
      HandledAlone(rest, i - 1, now, h);
      assert ts[..i][1..] == rest[..i - 1] && ts[i + 1..] == rest[i..];
    }
  }

  ghost predicate DistinctIds(ts: seq<Timer>) {
    forall i, j | 0 <= i < j < |ts| :: ts[i].id != ts[j].id
  }

  /** Each due timer fires exactly once in a pass, and nothing else fires. */
  lemma {:induction false} FiresExactlyOnce(ts: seq<Timer>, now: Timeval)
    requires DistinctIds(ts)
    ensures forall i | 0 <= i < |ts| :: multiset(DueIds(ts, now))[ts[i].id] == if Due(ts[i], now) then 1 else 0
    ensures forall id | id in DueIds(ts, now) :: exists i | 0 <= i < |ts| :: ts[i].id == id
  {
    if ts != [] {
      var first, rest := if Due(ts[0], now) then [ts[0].id] else [], ts[1..];
      FiresExactlyOnce(rest, now);
      assert multiset(DueIds(ts, now)) == multiset(first) + multiset(DueIds(rest, now));
      forall i | 0 <= i < |ts|
        ensures multiset(DueIds(ts, now))[ts[i].id] == if Due(ts[i], now) then 1 else 0
      {
        if i > 0 {
          assert rest[i - 1] == ts[i];
        } else {
          assert ts[0].id !in DueIds(rest, now);
        }
      }
      forall id | id in DueIds(ts, now)
        ensures exists i | 0 <= i < |ts| :: ts[i].id == id
      {
        if id in DueIds(rest, now) {
          var i :| 0 <= i < |rest| && rest[i].id == id;
          assert ts[i + 1].id == id;
        }
      }
    }
  }

  lemma Multiple(t: nat, step: nat, now: nat)
    requires step > 0 && t < now
    ensures (now - t) % step == 0 <==> exists k: nat :: k >= 1 && Later(t, step, k) == now
  {
    if (now - t) % step == 0 {
      var k := (now - t) / step;
      LaterIsProduct(t, step, k);
    }
    forall k: nat | k >= 1 && Later(t, step, k) == now
      ensures (now - t) % step == 0
    {
      LaterIsProduct(t, step, k);
      MultipleHasNoRemainder(k, step);
    }
  }

  lemma MultipleHasNoRemainder(k: nat, step: nat)
    requires step > 0
    ensures k * step % step == 0
  {
    var q, r := k * step / step, k * step % step;
    assert r == (k - q) * step by {
      assert k * step == q * step + r;
    }
    SmallMultiple(k - q, step);
  }

  lemma SmallMultiple(m: int, step: nat)
    ensures m <= -1 ==> m * step + step <= 0
    ensures m >= 1 ==> m * step >= step
  {
    if m <= -1 {
      assert m * step + step == (m + 1) * step <= 0;
    }
  }

  lemma {:induction false} LaterGrows(t: nat, step: nat, j: nat, k: nat)
    requires j <= k
    ensures Later(t, step, j) <= Later(t, step, k)
  {
    if j < k {
      LaterGrows(t, step, j, k - 1);
    }
  }

  /** A timer that fires late is moved past now, so that it is not due again at that same time,
      except when a whole number of repetitions ends exactly at now. */
  lemma DueAgainAtOnceIff(t: Timer, now: Timeval)
    requires Normal(t.timeout) && Normal(t.repeat) && Normal(now) && Due(t, now)
    ensures Due(t.(timeout := Moved(t, now)), now)
       <==> IsSet(t.repeat) && Micros(t.timeout) < Micros(now)
            && (Micros(now) - Micros(t.timeout)) % Micros(t.repeat) == 0
  {
    LessIsEarlier(now, t.timeout);
    if IsSet(t.repeat) {
      var at, step, goal := Micros(t.timeout), Micros(t.repeat), Micros(now);
      var next := CatchUp(t.timeout, t.repeat, now);
      var k := CatchUpIsLeast(t.timeout, t.repeat, now);
      LessIsEarlier(now, next);
      if at < goal {
        Multiple(at, step, goal);
        forall m: nat | m >= 1 && Later(at, step, m) == goal
          ensures Micros(next) == goal
        {
          if m > k {
            LaterGrows(at, step, k, m - 1);
          }
        }
      } else {
        LaterGrows(at, step, 1, k);
        assert Later(at, step, 1) == Later(at, step, 0) + step;
      }
    }
  }

  /** timer_start never carries into the seconds. The timer it starts is due exactly from its
      deadline on if and only if the microseconds add up to one million at most; otherwise it is
      due too early. */
  lemma StartFiresOnTimeIff(t: Timer, now: Timeval, timeout: nat, repeat: nat)
    requires Normal(now) && IsSet(now)
    ensures var s := Start(t, now, timeout, repeat);
            (forall clock | Normal(clock) :: Due(s, clock) <==> Micros(now) + timeout * 1000 <= Micros(clock))
            <==> now.usec + timeout % 1000 * 1000 <= 1000000
  {
    var s := Start(t, now, timeout, repeat);
    StartIsExact(t, now, timeout, repeat);
    if s.timeout.usec <= 1000000 {
      forall clock | Normal(clock)
        ensures Due(s, clock) <==> Micros(now) + timeout * 1000 <= Micros(clock)
      {
        assert Less(clock, s.timeout) <==> Micros(clock) < Micros(s.timeout);
      }
    } else {
      var early := Timeval(s.timeout.sec + 1, 0);
      assert Normal(early) && Due(s, early);
    }
  }

  /** Division as C does it, towards zero. */
  function TruncDiv(a: int, b: nat): int
    requires b > 0
  {
    if a >= 0 then a / b else -((-a) / b)
  }

  /** The wait in milliseconds, computed from a second clock reading. */
  function Wait(wake: Timeval, now: Timeval): int {
    if Less(now, wake) then (wake.sec - now.sec) * 1000 + TruncDiv(wake.usec - now.usec, 1000) else 0
  }

  /** The wait is the time left in milliseconds, rounded down when the wake-up time is not behind in
      its second and up when it is. */
  lemma WaitIsClose(wake: Timeval, now: Timeval)
    requires Normal(wake) && Normal(now)
    ensures var gap := if Micros(now) < Micros(wake) then Micros(wake) - Micros(now) else 0;
            Wait(wake, now) >= 0 && if now.usec <= wake.usec then 0 <= gap - Wait(wake, now) * 1000 < 1000
                                    else 0 <= Wait(wake, now) * 1000 - gap < 1000
  {
    LessIsEarlier(now, wake);
    var u := wake.usec - now.usec;
    assert if u >= 0 then 0 <= u - TruncDiv(u, 1000) * 1000 < 1000 else 0 <= TruncDiv(u, 1000) * 1000 - u < 1000;
  }

  /** The wait a pass returns is at most one second. */
  lemma WaitOfPass(ts: seq<Timer>, now: Timeval, later: Timeval)
    requires Carried(ts) && Normal(now) && Normal(later) && Micros(now) <= Micros(later)
    ensures 0 <= Wait(NextWake(ts, now, Timeval(now.sec + 1, now.usec)), later) <= 1000
  {
    var limit := Timeval(now.sec + 1, now.usec);
    NextWakeNormal(ts, now, limit);
    NextWakeIsEarliest(ts, now, limit);
    WaitIsClose(NextWake(ts, now, limit), later);
  }

  lemma Middle(a: seq<Timer>, t: Timer, b: seq<Timer>)
    ensures (a + [t] + b)[..|a|] == a && (a + [t] + b)[|a| + 1..] == b
  {
  }

  lemma Replaced(a: seq<Timer>, t: Timer, u: Timer, b: seq<Timer>)
    ensures (a + [t] + b)[|a| := u] == a + [u] + b
  {
  }

  class TimerLoop {
    var timers: seq<Timer>

    /** timer_loop: fired lists the handlers called, in order; now and then are the clock before
        and after the pass. */
    method Pass(now: Timeval, then_: Timeval, h: Handler) returns (fired: seq<nat>, wait: int)
      requires forall i | 0 <= i < |timers| :: Repeats(timers[i])
      modifies this
      ensures timers == HandledAll(old(timers), now, h)
      ensures fired == DueIds(old(timers), now)
      ensures wait == Wait(NextWake(old(timers), now, Timeval(now.sec + 1, now.usec)), then_)
    {
      var wake := Timeval(now.sec + 1, now.usec);
      fired := [];
      var n, todo := 0, timers;
      ghost var done := [];
      while todo != []
        invariant n == |done| && timers == done + todo
        invariant forall i | 0 <= i < |todo| :: Repeats(todo[i])
        invariant done + HandledAll(todo, now, h) == HandledAll(old(timers), now, h)
        invariant fired + DueIds(todo, now) == DueIds(old(timers), now)
        invariant NextWake(todo, now, wake) == NextWake(old(timers), now, Timeval(now.sec + 1, now.usec))
        decreases |todo|
      {
        var pos := todo[0];
        ghost var left, due := Handled(pos, now, h), if Due(pos, now) then [pos.id] else [];
        ghost var done0, fired0 := done, fired;
        todo := todo[1..];
        Middle(done, pos, todo);
        assert timers == done + [pos] + todo;
        Regroup(done, left, HandledAll(todo, now, h));
        Regroup(fired, due, DueIds(todo, now));
        if !IsSet(pos.timeout) || Less(now, pos.timeout) {
          if IsSet(pos.timeout) {
            wake := Earlier(pos.timeout, wake);
          }
          done := done + [pos];
          n := n + 1;
        } else {
          var deadline := ZERO;
          if IsSet(pos.repeat) {
            deadline := CatchUpLoop(pos.timeout, pos.repeat, now);
            wake := Earlier(deadline, wake);
          }
          fired := fired + [pos.id];
          match h(pos.(timeout := deadline)) {
            case None =>
              timers := timers[..n] + timers[n + 1..];
            case Some(t) =>
              Replaced(done, pos, t, todo);
              timers := timers[n := t];
              done := done + [t];
              n := n + 1;
          }
        }
        assert done == done0 + left && fired == fired0 + due;
      }
      wait := Wait(wake, then_);
    }
  }
}
