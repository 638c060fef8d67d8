/** Run's control loop: a ticker, a one-slot trigger and a one-shot deferred timer in
    front of Refresh, with a retry budget and the API-call floor. */
module RefreshLoop {
  import opened Text
  import opened Throttle

  const MAX_RETRIES := 3

  datatype Wake = Tick | Deferred | Trigger

  /** A call of TriggerRefresh, or a wake-up of the loop: the instant it is handled and
      the attempt it would make. The clock reads of one wake-up up to arming a timer
      count as one instant. */
  datatype Event =
    | Press
    | Woken(wake: Wake, at: nat, startedAt: nat, finishedAt: nat, ok: bool)
  {
    predicate Fires() { Woken? && wake.Deferred? }
  }

  /** `pending` is the deadline of the deferred timer while it is armed, `queued` the
      trigger slot. The last four fields only watch: whether a press or tick still waits
      for an attempt to start, whether the loop has taken a wake-up and not attempted
      since, the length of the current series of failures, and the time reached. */
  datatype Loop = Loop(
    failures: nat,
    pending: Option<nat>,
    lastAttempt: Option<nat>,
    queued: bool,
    owed: bool,
    taken: bool,
    series: nat,
    now: nat)

  /** arm: a second call while a timer is pending is ignored. */
  function Arm(s: Loop, at: nat, wait: nat): Loop {
    if s.pending.Some? then s else s.(pending := Some(at + wait))
  }

  /** An attempt and what a failure leads to. */
  function Attempt(minInterval: int, s: Loop, startedAt: nat, finishedAt: nat, ok: bool): Loop {
    var t := s.(lastAttempt := Some(startedAt), owed := false, taken := false, now := finishedAt);
    if ok then t.(failures := 0, series := 0)
    else if s.failures < MAX_RETRIES then
      Arm(t.(failures := s.failures + 1, series := s.series + 1), finishedAt,
          RetryDelay(minInterval, Some(startedAt), finishedAt))
    else t.(series := s.series + 1)
  }

  /** One round of the loop. */
  function Handle(minInterval: int, s: Loop, ev: Event): Loop {
    if ev.Press? then s.(queued := true, owed := true) else
    var woken := s.(pending := if ev.wake.Deferred? then None else s.pending,
                    queued := s.queued && !ev.wake.Trigger?,
                    failures := if ev.wake.Deferred? then s.failures else 0,
                    series := if ev.wake.Deferred? then s.series else 0,
                    owed := s.owed || !ev.wake.Deferred?,
                    taken := true,
                    now := ev.at);
    var wait := Remaining(minInterval, s.lastAttempt, ev.at);
    if wait > 0 then Arm(woken, ev.at, wait)
    else Attempt(minInterval, woken, ev.startedAt, ev.finishedAt, ev.ok)
  }

  /** The attempt at startup, before the loop. */
  function Startup(minInterval: int, startedAt: nat, finishedAt: nat, ok: bool): Loop {
    Attempt(minInterval, Loop(0, None, None, false, true, true, 0, startedAt), startedAt, finishedAt, ok)
  }

  /** The clock moves on, the deferred timer fires only when armed and due, and a trigger
      is received only when one is queued. */
  predicate Possible(s: Loop, ev: Event) {
    ev.Woken? ==>
      && s.now <= ev.at <= ev.startedAt <= ev.finishedAt
      && (ev.wake.Deferred? ==> s.pending.Some? && s.pending.value <= ev.at)
      && (ev.wake.Trigger? ==> s.queued)
  }

  predicate PossibleRun(minInterval: int, s: Loop, events: seq<Event>)
    decreases |events|
  {
    events == [] || (Possible(s, events[0]) && PossibleRun(minInterval, Handle(minInterval, s, events[0]), events[1..]))
  }

  function After(minInterval: int, s: Loop, events: seq<Event>): Loop
    decreases |events|
  {
    if events == [] then s else After(minInterval, Handle(minInterval, s, events[0]), events[1..])
  }

  /** Run, on the attempt at startup and what happens afterwards. */
  method Run(minInterval: int, startedAt: nat, finishedAt: nat, ok: bool, events: seq<Event>)
    returns (failures: nat, deferred: Option<nat>, lastAttempt: Option<nat>, trigger: bool)
    ensures var end := After(minInterval, Startup(minInterval, startedAt, finishedAt, ok), events);
            && failures == end.failures && deferred == end.pending
            && lastAttempt == end.lastAttempt && trigger == end.queued
  {
    failures, deferred, lastAttempt, trigger := 0, None, Some(startedAt), false;
    if !ok {
      failures := 1;
      deferred := Some(finishedAt + RetryDelay(minInterval, lastAttempt, finishedAt));
    }
    ghost var start := Startup(minInterval, startedAt, finishedAt, ok);
    ghost var s := start;
    for i := 0 to |events|
      invariant failures == s.failures && deferred == s.pending && lastAttempt == s.lastAttempt && trigger == s.queued
      invariant After(minInterval, s, events[i..]) == After(minInterval, start, events)
    {
      var ev := events[i];
      assert events[i..][0] == ev && events[i..][1..] == events[i + 1..];
      s := Handle(minInterval, s, ev);
      if ev.Press? {
        trigger := true;
        continue;
      }
      var continuation := false;
      match ev.wake {
        case Tick =>
        case Deferred =>
          deferred := None;
          continuation := true;
        case Trigger =>
          trigger := false;
      }
      if !continuation {
        failures := 0;
      }
      var wait := Remaining(minInterval, lastAttempt, ev.at);
      if wait > 0 {
        if deferred.None? {
          deferred := Some(ev.at + wait);
        }
        continue;
      }
      lastAttempt := Some(ev.startedAt);
      if !ev.ok {
        if failures < MAX_RETRIES {
          failures := failures + 1;
          if deferred.None? {
            deferred := Some(ev.finishedAt + RetryDelay(minInterval, lastAttempt, ev.finishedAt));
          }
        }
        continue;
      }
      failures := 0;
    }
  }

  // ----- What every run keeps -----

  /** The floor has not expired at the time reached. */
  predicate FloorRunning(minInterval: int, s: Loop) { Remaining(minInterval, s.lastAttempt, s.now) > 0 }

  /** The longest a timer is ever armed for. */
  function Longest(minInterval: int): nat { if minInterval > 0 then minInterval else SECOND }

  predicate WakeUpsAreKept(minInterval: int, s: Loop) {
    && s.lastAttempt.Some? && s.lastAttempt.value <= s.now
    && (s.owed ==> s.queued || s.taken)
    && (s.taken ==> s.pending.Some? && FloorRunning(minInterval, s))
    && (s.pending.Some? ==> s.pending.value <= s.now + Longest(minInterval))
    && (s.pending.Some? && FloorRunning(minInterval, s) ==> s.pending.value <= s.lastAttempt.value + minInterval)
  }

  predicate FailuresAreKept(s: Loop) {
    && s.failures <= MAX_RETRIES
    && (0 < s.series <= MAX_RETRIES ==> s.pending.Some?)
    && (s.series == s.failures || (s.series == MAX_RETRIES + 1 && s.failures == MAX_RETRIES && s.pending.None?))
  }

  predicate Invariant(minInterval: int, s: Loop) { WakeUpsAreKept(minInterval, s) && FailuresAreKept(s) }

  lemma StartupInvariant(minInterval: int, startedAt: nat, finishedAt: nat, ok: bool)
    requires startedAt <= finishedAt
    ensures Invariant(minInterval, Startup(minInterval, startedAt, finishedAt, ok))
  {}

  lemma HandleKeepsWakeUps(minInterval: int, s: Loop, ev: Event)
    requires WakeUpsAreKept(minInterval, s) && Possible(s, ev)
    ensures WakeUpsAreKept(minInterval, Handle(minInterval, s, ev))
  {}

  lemma HandleKeepsFailures(minInterval: int, s: Loop, ev: Event)
    requires FailuresAreKept(s) && Possible(s, ev)
    ensures FailuresAreKept(Handle(minInterval, s, ev))
  {}

  lemma HandleKeepsInvariant(minInterval: int, s: Loop, ev: Event)
    requires Invariant(minInterval, s) && Possible(s, ev)
    ensures Invariant(minInterval, Handle(minInterval, s, ev))
  {
    HandleKeepsWakeUps(minInterval, s, ev);
    HandleKeepsFailures(minInterval, s, ev);
  }

  lemma {:induction false} InvariantAlways(minInterval: int, s: Loop, events: seq<Event>)
    requires Invariant(minInterval, s) && PossibleRun(minInterval, s, events)
    ensures Invariant(minInterval, After(minInterval, s, events))
    decreases |events|
  {
    if events != [] {
      HandleKeepsInvariant(minInterval, s, events[0]);
      InvariantAlways(minInterval, Handle(minInterval, s, events[0]), events[1..]);
    }
  }

  /** No accepted press or tick is lost. After any run, if the loop has taken a wake-up and
      started no attempt since, the deferred timer is armed and due no later than the end
      of the floor, which is still running; whatever else may be queued. And a press or
      tick that waits has been taken in this sense or is still in the trigger slot. */
  lemma NoWakeUpIsLost(minInterval: int, startedAt: nat, finishedAt: nat, ok: bool, events: seq<Event>)
    requires startedAt <= finishedAt
    requires PossibleRun(minInterval, Startup(minInterval, startedAt, finishedAt, ok), events)
    ensures var s := After(minInterval, Startup(minInterval, startedAt, finishedAt, ok), events);
            && (s.taken ==> s.pending.Some? && FloorRunning(minInterval, s)
                            && s.pending.value <= s.lastAttempt.value + minInterval)
            && (s.owed ==> s.queued || s.taken)
            && (s.pending.Some? && FloorRunning(minInterval, s) ==>
                  s.pending.value <= s.lastAttempt.value + minInterval)
            && (s.pending.Some? ==> s.pending.value <= s.now + Longest(minInterval))
  {
    StartupInvariant(minInterval, startedAt, finishedAt, ok);
    InvariantAlways(minInterval, Startup(minInterval, startedAt, finishedAt, ok), events);
  }

  /** What `taken` watches: after a wake-up it says that no attempt was started then. */
  lemma TakenMeansNotAttempted(minInterval: int, s: Loop, ev: Event)
    requires Possible(s, ev) && s.lastAttempt.Some? && s.lastAttempt.value <= s.now
    ensures var t := Handle(minInterval, s, ev);
            if ev.Press? then t.taken == s.taken && t.queued && t.owed
            else t.taken <==> CallOf(minInterval, s, ev) == []
  {}

  /** The wait ends: a wake-up of any kind at or after the end of the floor attempts at
      once, and one before it leaves a timer armed for no later than that end. */
  lemma OwedIsServedWhenTheFloorEnds(minInterval: int, s: Loop, ev: Event)
    requires Invariant(minInterval, s) && Possible(s, ev) && ev.Woken?
    ensures var t := Handle(minInterval, s, ev);
            if Remaining(minInterval, s.lastAttempt, ev.at) == 0
            then !t.owed && !t.taken && t.lastAttempt == Some(ev.startedAt)
            else && t.pending.Some? && t.pending.value <= s.lastAttempt.value + minInterval
                 && t.lastAttempt == s.lastAttempt
  {}

  /** When a failed attempt is to be made again. */
  function NextTry(minInterval: int, startedAt: nat, finishedAt: nat): nat {
    if minInterval <= 0 then finishedAt + 1_000_000_000
    else if finishedAt < startedAt + minInterval then startedAt + minInterval
    else finishedAt + minInterval
  }

  /** A wake-up whose attempt fails. Ticks and presses have the whole budget of three
      retries, the timer what its series has left. Within the budget a timer is armed
      afterwards, and a newly armed one for the instant of the next try, which the floor
      does not refuse; past it no timer is. */
  lemma FailureIsRetried(minInterval: int, s: Loop, ev: Event)
    requires Invariant(minInterval, s) && Possible(s, ev) && ev.Woken? && !ev.ok
    requires CallOf(minInterval, s, ev) != []
    ensures var t, made := Handle(minInterval, s, ev), if ev.wake.Deferred? then s.failures else 0;
            && t.series == (if ev.wake.Deferred? then s.series else 0) + 1
            && t.lastAttempt == Some(ev.startedAt) && t.now == ev.finishedAt
            && (made == 3 ==> t.failures == 3 && t.pending == None)
            && (made < 3 ==>
                  && t.failures == made + 1
                  && t.pending.Some? && t.pending.value <= ev.finishedAt + Longest(minInterval)
                  && (!ev.wake.Deferred? && s.pending.Some? ==> t.pending == s.pending)
                  && (ev.wake.Deferred? || s.pending.None? ==>
                        && t.pending.value == NextTry(minInterval, ev.startedAt, ev.finishedAt)
                        && t.pending.value >= ev.startedAt + minInterval && t.pending.value > ev.finishedAt
                        && Remaining(minInterval, t.lastAttempt, t.pending.value) == 0))
  {
    RetryIsDue(minInterval, ev.startedAt, ev.finishedAt);
  }

  /** The same for the attempt at startup. */
  lemma StartupFailureIsRetried(minInterval: int, startedAt: nat, finishedAt: nat)
    requires startedAt <= finishedAt
    ensures var s := Startup(minInterval, startedAt, finishedAt, false);
            && s.failures == 1 && s.series == 1 && s.lastAttempt == Some(startedAt) && !s.queued
            && s.pending == Some(NextTry(minInterval, startedAt, finishedAt))
            && Remaining(minInterval, s.lastAttempt, s.pending.value) == 0
  {
    RetryIsDue(minInterval, startedAt, finishedAt);
  }

  /** An attempt that succeeds ends the series and arms nothing. */
  lemma SuccessEndsTheSeries(minInterval: int, s: Loop, ev: Event)
    requires Possible(s, ev) && ev.Woken? && ev.ok && CallOf(minInterval, s, ev) != []
    ensures var t := Handle(minInterval, s, ev);
            && t.failures == 0 && t.series == 0 && t.lastAttempt == Some(ev.startedAt)
            && t.pending == if ev.wake.Deferred? then None else s.pending
  {}

  /** A wake-up inside the floor arms the timer for the end of the floor, unless one is
      armed, and uses up none of the budget. */
  lemma HeldWakeUpIsDeferred(minInterval: int, s: Loop, ev: Event)
    requires Possible(s, ev) && ev.Woken? && CallOf(minInterval, s, ev) == []
    ensures s.lastAttempt.Some? && ev.at < s.lastAttempt.value + minInterval
    ensures var t := Handle(minInterval, s, ev);
            && t.lastAttempt == s.lastAttempt
            && t.failures == (if ev.wake.Deferred? then s.failures else 0)
            && t.pending == if !ev.wake.Deferred? && s.pending.Some? then s.pending
                            else Some(s.lastAttempt.value + minInterval)
  {
    FloorEnds(minInterval, s.lastAttempt, ev.at);
  }

  /** An armed timer keeps its deadline until it fires, and the trigger slot is emptied
      only by the wake-up it causes. */
  lemma ArmedAndQueuedStay(minInterval: int, s: Loop, ev: Event)
    requires Possible(s, ev)
    ensures var t := Handle(minInterval, s, ev);
            && (s.pending.Some? && !ev.Fires() ==> t.pending == s.pending)
            && (t.queued <==> ev.Press? || (s.queued && !ev.wake.Trigger?))
            && (ev.Press? ==> t.pending == s.pending && t.failures == s.failures && t.lastAttempt == s.lastAttempt)
  {}

  /** No failure is forgotten: after any run, a series of one to three failures has a
      timer armed for its retry, due within the longest wait. */
  lemma NoFailureIsForgotten(minInterval: int, startedAt: nat, finishedAt: nat, ok: bool, events: seq<Event>)
    requires startedAt <= finishedAt
    requires PossibleRun(minInterval, Startup(minInterval, startedAt, finishedAt, ok), events)
    ensures var s := After(minInterval, Startup(minInterval, startedAt, finishedAt, ok), events);
            && (0 < s.series <= 3 ==> s.pending.Some? && s.pending.value <= s.now + Longest(minInterval))
            && (s.series == 0 <==> s.failures == 0)
  {
    StartupInvariant(minInterval, startedAt, finishedAt, ok);
    InvariantAlways(minInterval, Startup(minInterval, startedAt, finishedAt, ok), events);
  }

  /** A series of failures has at most MAX_RETRIES + 1 attempts, and after the last one
      no timer is armed. */
  lemma RetrySeriesIsBounded(minInterval: int, startedAt: nat, finishedAt: nat, ok: bool, events: seq<Event>)
    requires startedAt <= finishedAt
    requires PossibleRun(minInterval, Startup(minInterval, startedAt, finishedAt, ok), events)
    ensures var s := After(minInterval, Startup(minInterval, startedAt, finishedAt, ok), events);
            s.series <= MAX_RETRIES + 1 && (s.series == MAX_RETRIES + 1 ==> s.pending.None?)
  {
    StartupInvariant(minInterval, startedAt, finishedAt, ok);
    InvariantAlways(minInterval, Startup(minInterval, startedAt, finishedAt, ok), events);
  }

  // ----- Left alone, the loop comes to rest -----

  predicate TooEarly(minInterval: int, s: Loop) {
    s.pending.Some? && Remaining(minInterval, s.lastAttempt, s.pending.value) > 0
  }

  /** Timer firings still possible without a tick or a trigger. */
  function Remains(minInterval: int, s: Loop): nat
    requires s.failures <= MAX_RETRIES
  {
    if s.pending.None? then 0
    else 1 + (MAX_RETRIES - s.failures) + (if TooEarly(minInterval, s) then 1 else 0)
  }

  lemma FiringUsesUpRemains(minInterval: int, s: Loop, ev: Event)
    requires Invariant(minInterval, s) && Possible(s, ev) && ev.Fires()
    ensures var t := Handle(minInterval, s, ev);
            t.failures <= MAX_RETRIES && Remains(minInterval, t) < Remains(minInterval, s)
  {}

  /** With no further tick or trigger the loop makes finitely many attempts: at most
      MAX_RETRIES + 2 timer firings follow, whatever their outcomes and times. */
  lemma {:induction false} LoopComesToRest(minInterval: int, s: Loop, events: seq<Event>)
    requires Invariant(minInterval, s) && PossibleRun(minInterval, s, events)
    requires forall ev | ev in events :: ev.Fires()
    ensures |events| <= Remains(minInterval, s) <= MAX_RETRIES + 2
    decreases |events|
  {
    if events != [] {
      var t := Handle(minInterval, s, events[0]);
      assert events[0] in events;
      HandleKeepsInvariant(minInterval, s, events[0]);
      FiringUsesUpRemains(minInterval, s, events[0]);
      LoopComesToRest(minInterval, t, events[1..]);
    }
  }

  // ----- Run and the floor -----

  /** The calls of Refresh a run makes. */
  function Calls(minInterval: int, s: Loop, events: seq<Event>): seq<Call>
    decreases |events|
  {
    if events == [] then []
    else CallOf(minInterval, s, events[0]) + Calls(minInterval, Handle(minInterval, s, events[0]), events[1..])
  }

  function CallOf(minInterval: int, s: Loop, ev: Event): seq<Call> {
    if ev.Press? || Remaining(minInterval, s.lastAttempt, ev.at) > 0 then [] else [Call(ev.at, ev.startedAt)]
  }

  lemma OneMoreCall(minInterval: int, last: Option<nat>, call: Call, rest: seq<Call>)
    requires call.checkedAt <= call.startedAt && (last.Some? ==> last.value <= call.checkedAt)
    requires Remaining(minInterval, last, call.checkedAt) == 0
    requires Chronological(rest, Some(call.startedAt))
    ensures Chronological([call] + rest, last)
    ensures Attempts(minInterval, last, [call] + rest) ==
            [call.startedAt] + Attempts(minInterval, Some(call.startedAt), rest)
  {
    assert ([call] + rest)[1..] == rest;
  }

  lemma HandleMovesOn(minInterval: int, s: Loop, ev: Event)
    requires Possible(s, ev) && s.lastAttempt.Some? && s.lastAttempt.value <= s.now
    ensures var t := Handle(minInterval, s, ev);
            && t.lastAttempt == (if CallOf(minInterval, s, ev) == [] then s.lastAttempt else Some(ev.startedAt))
            && t.lastAttempt.value <= t.now
  {}

  /** Run checks the floor before every call, so no call it makes is ever throttled:
      each one is an attempt, and the calls are in time order. */
  lemma {:induction false} RunIsNeverThrottled(minInterval: int, s: Loop, events: seq<Event>)
    requires PossibleRun(minInterval, s, events) && s.lastAttempt.Some? && s.lastAttempt.value <= s.now
    ensures var calls := Calls(minInterval, s, events);
            && Chronological(calls, s.lastAttempt)
            && |Attempts(minInterval, s.lastAttempt, calls)| == |calls|
    decreases |events|
  {
    if events != [] {
      var ev := events[0];
      var t := Handle(minInterval, s, ev);
      var rest := Calls(minInterval, t, events[1..]);
      HandleMovesOn(minInterval, s, ev);
      RunIsNeverThrottled(minInterval, t, events[1..]);
      if CallOf(minInterval, s, ev) == [] {
        assert Calls(minInterval, s, events) == rest;
      } else {
        OneMoreCall(minInterval, s.lastAttempt, Call(ev.at, ev.startedAt), rest);
        assert Calls(minInterval, s, events) == [Call(ev.at, ev.startedAt)] + rest;
      }
    }
  }
}
