/** The floor between two GitHub API calls. Times are in nanoseconds. */
module Throttle {
  import opened Text

  const SECOND := 1_000_000_000

  /** throttleRemaining: a non-positive interval disables the floor. */
  function Remaining(minInterval: int, last: Option<nat>, now: nat): nat {
    if minInterval <= 0 || last.None? then 0
    else if minInterval - (now - last.value) > 0 then minInterval - (now - last.value)
    else 0
  }

  /** retryDelay: never zero, so a mirror without a floor still cannot spin. */
  function RetryDelay(minInterval: int, last: Option<nat>, now: nat): (wait: nat)
    ensures wait > 0
  {
    if Remaining(minInterval, last, now) > 0 then Remaining(minInterval, last, now)
    else if minInterval > 0 then minInterval
    else SECOND
  }

  /** The floor ends one interval after the recorded attempt; a configuration without an
      interval, or a mirror that has made no attempt, has none. */
  lemma FloorEnds(minInterval: int, last: Option<nat>, now: nat)
    ensures Remaining(minInterval, last, now) == 0 <==>
              minInterval <= 0 || last.None? || now >= last.value + minInterval
    ensures Remaining(minInterval, last, now) > 0 ==>
              now + Remaining(minInterval, last, now) == last.value + minInterval
  {}

  /** When a failed attempt is made again: at the end of the floor, or one interval (one
      second, if there is none) after an attempt that outlasted it. */
  lemma RetryIsDue(minInterval: int, startedAt: nat, finishedAt: nat)
    requires startedAt <= finishedAt
    ensures finishedAt + RetryDelay(minInterval, Some(startedAt), finishedAt) ==
            if minInterval <= 0 then finishedAt + 1_000_000_000
            else if finishedAt < startedAt + minInterval then startedAt + minInterval
            else finishedAt + minInterval
  {}

  /** One call of Refresh: when it reads the clock for the floor, and when it records its attempt. */
  datatype Call = Call(checkedAt: nat, startedAt: nat)

  /** Refreshes are serialised and the clock does not run backwards. */
  ghost predicate Chronological(calls: seq<Call>, last: Option<nat>) {
    && (forall i | 0 <= i < |calls| :: calls[i].checkedAt <= calls[i].startedAt)
    && (forall i, j | 0 <= i < j < |calls| :: calls[i].startedAt <= calls[j].checkedAt)
    && (last.Some? ==> forall i | 0 <= i < |calls| :: last.value <= calls[i].checkedAt)
  }

  /** The start times of the calls that get past the floor, whatever their outcome. */
  function Attempts(minInterval: int, last: Option<nat>, calls: seq<Call>): seq<nat>
    decreases |calls|
  {
    if calls == [] then []
    else if Remaining(minInterval, last, calls[0].checkedAt) > 0 then Attempts(minInterval, last, calls[1..])
    else [calls[0].startedAt] + Attempts(minInterval, Some(calls[0].startedAt), calls[1..])
  }

  /** The recorded attempt after some calls. */
  function Latest(last: Option<nat>, attempts: seq<nat>): Option<nat> {
    if attempts == [] then last else Some(attempts[|attempts| - 1])
  }

  /** One more call adds an attempt exactly when the floor, counted from the recorded one,
      has expired. */
  lemma {:induction false} OneMoreAttempt(minInterval: int, last: Option<nat>, calls: seq<Call>, call: Call)
    ensures var before := Attempts(minInterval, last, calls);
            Attempts(minInterval, last, calls + [call]) ==
            if Remaining(minInterval, Latest(last, before), call.checkedAt) > 0 then before
            else before + [call.startedAt]
    decreases |calls|
  {
    if calls == [] {
      assert calls + [call] == [call] && [call][1..] == [];
    } else {
      assert (calls + [call])[1..] == calls[1..] + [call];
      var now := if Remaining(minInterval, last, calls[0].checkedAt) > 0 then last else Some(calls[0].startedAt);
      OneMoreAttempt(minInterval, now, calls[1..], call);
    }
  }

  lemma {:induction false} AttemptsAreSpaced(minInterval: int, last: Option<nat>, calls: seq<Call>)
    requires minInterval > 0 && Chronological(calls, last)
    ensures var a := Attempts(minInterval, last, calls);
            && (a != [] && last.Some? ==> a[0] >= last.value + minInterval)
            && forall i | 0 <= i < |a| - 1 :: a[i] + minInterval <= a[i + 1]
    decreases |calls|
  {
    if calls != [] {
      if Remaining(minInterval, last, calls[0].checkedAt) > 0 {
        AttemptsAreSpaced(minInterval, last, calls[1..]);
      } else {
        AttemptsAreSpaced(minInterval, Some(calls[0].startedAt), calls[1..]);
      }
    }
  }

  lemma {:induction false} SpacingAddsUp(minInterval: int, a: seq<nat>, i: nat, j: nat)
    requires minInterval > 0 && i <= j < |a|
    requires forall k | 0 <= k < |a| - 1 :: a[k] + minInterval <= a[k + 1]
    ensures a[j] - a[i] >= (j - i) * minInterval
    decreases j - i
  {
    if i < j {
      SpacingAddsUp(minInterval, a, i, j - 1);
      assert a[j - 1] + minInterval <= a[j];
      assert (j - i) * minInterval == (j - 1 - i) * minInterval + minInterval;
    }
  }

  lemma AtMostQuotient(k: nat, m: nat, w: nat)
    requires m > 0 && k * m <= w
    ensures k <= w / m
  {
    var q := w / m;
    assert w == q * m + w % m;
    var d := k - q - 1;
    assert k * m == d * m + q * m + m;
    assert d >= 0 ==> d * m >= 0;
  }

  /** Over any run of Refresh calls, k attempts span at least (k-1) intervals, so a
      window of length w holds at most w / minInterval + 1 of them; failures count. */
  lemma AttemptsInAWindow(minInterval: int, last: Option<nat>, calls: seq<Call>, i: nat, j: nat, w: nat)
    requires minInterval > 0 && Chronological(calls, last)
    requires i <= j < |Attempts(minInterval, last, calls)|
    requires Attempts(minInterval, last, calls)[j] - Attempts(minInterval, last, calls)[i] <= w
    ensures j - i + 1 <= w / minInterval + 1
  {
    AttemptsAreSpaced(minInterval, last, calls);
    SpacingAddsUp(minInterval, Attempts(minInterval, last, calls), i, j);
    AtMostQuotient(j - i, minInterval, w);
  }
}
