/** The per-provider circuit breaker: a health record per provider name
    (`ProviderHealth`), created lazily, driven by recorded successes and
    failures and by the passage of time. Every read of the clock is a `now`
    parameter. */
module Breaker {
  import opened Text
  import opened Json
  import opened Seqs

  const WindowSize: nat := 20

  datatype CircuitState = Closed | Open | HalfOpen

  /** `ProviderHealth`. The counters only ever count up from 0 or reset to
      0, so they are natural numbers. */
  datatype Health = Health(
    consecutiveFailures: nat,
    state: CircuitState,
    trippedAt: real,
    responseTimes: seq<real>,
    errorCount: nat,
    successCount: nat)

  /** A record with the dataclass defaults. */
  const Fresh := Health(0, Closed, 0.0, [], 0, 0)

  function Sum(xs: seq<real>): real {
    if |xs| == 0 then 0.0 else Sum(xs[..|xs| - 1]) + xs[|xs| - 1]
  }

  /** `avg_response_ms`: the mean of the window, 0.0 when it is empty. */
  function AvgResponseMs(h: Health): real {
    if |h.responseTimes| == 0 then 0.0 else Sum(h.responseTimes) / (|h.responseTimes| as real)
  }

  /** `min(avg / 1000 * 10, 40)`: ten points per second of mean latency. */
  function SpeedPenalty(h: Health): (p: real)
    ensures p <= 40.0
  {
    var raw := AvgResponseMs(h) / 1000.0 * 10.0;
    if raw <= 40.0 then raw else 40.0
  }

  /** `health_score`: 100 without traffic, otherwise 100 minus up to 60 points
      for the error rate and up to 40 for slowness, truncated, at least 0. */
  function HealthScore(h: Health): (score: int)
    ensures score >= 0
    ensures h.errorCount + h.successCount == 0 ==> score == 100
  {
    var total := h.errorCount + h.successCount;
    if total == 0 then 100
    else
      var errorRate := h.errorCount as real / total as real;
      var raw := Trunc(100.0 - errorRate * 60.0 - SpeedPenalty(h));
      if raw >= 0 then raw else 0
  }

  lemma {:induction false} SumNonNegative(xs: seq<real>)
    requires forall i :: 0 <= i < |xs| ==> xs[i] >= 0.0
    ensures Sum(xs) >= 0.0
  {
    if |xs| > 0 {
      SumNonNegative(xs[..|xs| - 1]);
    }
  }

  /** With non-negative response times the score is a percentage, and the
      error rate alone costs at most 60 of it. */
  lemma {:induction false} ScoreIsPercentage(h: Health)
    requires forall i :: 0 <= i < |h.responseTimes| ==> h.responseTimes[i] >= 0.0
    ensures 0 <= HealthScore(h) <= 100
    ensures h.responseTimes == [] ==> HealthScore(h) >= 40
  {
    SumNonNegative(h.responseTimes);
    var total := h.errorCount + h.successCount;
    if total > 0 {
      var errorRate := h.errorCount as real / total as real;
      assert 0.0 <= errorRate <= 1.0 by {
        assert h.errorCount as real <= total as real;
      }
      assert SpeedPenalty(h) >= 0.0;
    }
  }

  function Constant(n: nat, v: real): (r: seq<real>)
    ensures |r| == n && forall i :: 0 <= i < n ==> r[i] == v
  {
    seq(n, _ => v)
  }

  lemma {:induction false} SumConstant(n: nat, v: real)
    ensures Sum(Constant(n, v)) == n as real * v
  {
    if n > 0 {
      assert Constant(n, v)[..n - 1] == Constant(n - 1, v);
      SumConstant(n - 1, v);
    }
  }

  /** Twenty fast successes (50 ms each) score 99: half a point for speed,
      truncated away. */
  lemma {:induction false} ScoreFastSuccesses()
    ensures HealthScore(Health(0, Closed, 0.0, Constant(20, 50.0), 0, 20)) == 99
  {
    var h := Health(0, Closed, 0.0, Constant(20, 50.0), 0, 20);
    SumConstant(20, 50.0);
    assert AvgResponseMs(h) == 50.0;
    assert SpeedPenalty(h) == 0.5;
  }

  /** Only errors, no latencies: 60 points lost, 40 left. */
  lemma {:induction false} ScoreAllErrors()
    ensures HealthScore(Health(0, Closed, 0.0, [], 10, 0)) == 40
  {
  }

  /** Half errors at 3 s mean latency: 30 points for errors, 30 for speed. */
  lemma {:induction false} ScoreMixedSlow()
    ensures HealthScore(Health(0, Closed, 0.0, Constant(10, 3000.0), 5, 5)) == 40
  {
    var h := Health(0, Closed, 0.0, Constant(10, 3000.0), 5, 5);
    SumConstant(10, 3000.0);
    assert AvgResponseMs(h) == 3000.0;
    assert SpeedPenalty(h) == 30.0;
  }

  /** A 10 s response would cost 100 points but the speed penalty stops at 40. */
  lemma {:induction false} ScoreSpeedCapped()
    ensures HealthScore(Health(0, Closed, 0.0, [10000.0], 0, 1)) == 60
  {
    var h := Health(0, Closed, 0.0, [10000.0], 0, 1);
    assert Sum([10000.0]) == Sum([]) + 10000.0;
    assert SpeedPenalty(h) == 40.0;
  }

  /** `record_success` on one record: the latency joins the window, the
      success is counted, the failure streak ends, and a half-open circuit
      closes. An open circuit stays open. */
  function Succeed(h: Health, responseMs: real): (r: Health)
    ensures r.responseTimes == KeepLast(h.responseTimes + [responseMs], WindowSize)
    ensures r.successCount == h.successCount + 1 && r.errorCount == h.errorCount
    ensures r.consecutiveFailures == 0
    ensures r.state == (if h.state == HalfOpen then Closed else h.state)
    ensures r.trippedAt == h.trippedAt
  {
    h.(responseTimes := KeepLast(h.responseTimes + [responseMs], WindowSize),
       successCount := h.successCount + 1,
       consecutiveFailures := 0,
       state := if h.state == HalfOpen then Closed else h.state)
  }

  /** `record_failure` on one record. A failure while half-open re-opens the
      circuit at once; otherwise reaching the threshold opens it (and
      re-stamps an open one). Only a positive latency joins the window. */
  function Fail(h: Health, responseMs: real, now: real, threshold: int): (r: Health)
    ensures r.responseTimes == if responseMs > 0.0 then KeepLast(h.responseTimes + [responseMs], WindowSize) else h.responseTimes
    ensures r.errorCount == h.errorCount + 1 && r.successCount == h.successCount
    ensures r.consecutiveFailures == h.consecutiveFailures + 1
    ensures h.state == HalfOpen ==> r.state == Open && r.trippedAt == now
    ensures h.state != HalfOpen ==>
      if r.consecutiveFailures >= threshold then r.state == Open && r.trippedAt == now
      else r.state == h.state && r.trippedAt == h.trippedAt
  {
    var times := if responseMs > 0.0 then KeepLast(h.responseTimes + [responseMs], WindowSize) else h.responseTimes;
    var counted := h.(responseTimes := times, errorCount := h.errorCount + 1,
                      consecutiveFailures := h.consecutiveFailures + 1);
    if h.state == HalfOpen || counted.consecutiveFailures >= threshold then
      counted.(state := Open, trippedAt := now)
    else counted
  }

  /** `is_available` on one record: closed and half-open circuits accept a
      call; an open one does once `recovery` seconds have passed since it
      tripped, and moves to half-open as it does. */
  function Probe(h: Health, now: real, recovery: real): (r: Health)
    ensures h.state == Open && now - h.trippedAt >= recovery ==> r == h.(state := HalfOpen)
    ensures !(h.state == Open && now - h.trippedAt >= recovery) ==> r == h
  {
    if h.state == Open && now - h.trippedAt >= recovery then h.(state := HalfOpen) else h
  }

  /** `CircuitBreaker`. */
  datatype Breaker = Breaker(threshold: int, recovery: real, health: map<string, Health>)

  function NewBreaker(threshold: int, recovery: real): Breaker {
    Breaker(threshold, recovery, map[])
  }

  /** What `_get` would return, without creating anything. */
  function HealthOf(b: Breaker, name: string): Health {
    if name in b.health then b.health[name] else Fresh
  }

  /** `_get`: the record for `name`, created with defaults on first use. */
  function Touch(b: Breaker, name: string): (r: Breaker)
    ensures name in r.health && r.health[name] == HealthOf(b, name)
    ensures r.health.Keys == b.health.Keys + {name}
    ensures forall n :: n in b.health ==> r.health[n] == b.health[n]
    ensures r.threshold == b.threshold && r.recovery == b.recovery
  {
    if name in b.health then b else b.(health := b.health[name := Fresh])
  }

  function Put(b: Breaker, name: string, h: Health): (r: Breaker)
    ensures r.health == b.health[name := h] && r.threshold == b.threshold && r.recovery == b.recovery
  {
    b.(health := b.health[name := h])
  }

  datatype Checked = Checked(breaker: Breaker, ok: bool)

  /** `is_available(name)` at time `now`. */
  function IsAvailable(b: Breaker, name: string, now: real): (r: Checked)
    ensures var h := HealthOf(b, name);
      r.ok <==> h.state != Open || now - h.trippedAt >= b.recovery
    ensures r.breaker == Put(b, name, Probe(HealthOf(b, name), now, b.recovery))
  {
    var h := HealthOf(b, name);
    Checked(Put(b, name, Probe(h, now, b.recovery)), h.state != Open || now - h.trippedAt >= b.recovery)
  }

  /** The seconds `why_unavailable` quotes: `max(0, int(remaining))`. */
  function RetryIn(h: Health, now: real, recovery: real): (s: nat)
    ensures now - h.trippedAt < recovery ==> s == Trunc(recovery - (now - h.trippedAt))
    ensures now - h.trippedAt >= recovery ==> s == 0
  {
    var t := Trunc(recovery - (now - h.trippedAt));
    if t >= 0 then t else 0
  }

  /** The countdown never goes up as time passes. */
  lemma {:induction false} RetryInDecreases(h: Health, earlier: real, later: real, recovery: real)
    requires earlier <= later
    ensures RetryIn(h, later, recovery) <= RetryIn(h, earlier, recovery)
  {
    var a := recovery - (earlier - h.trippedAt);
    var c := recovery - (later - h.trippedAt);
    if c > 0.0 {
      assert c.Floor <= a.Floor;
    }
  }

  datatype Explained = Explained(breaker: Breaker, reason: string)

  /** `why_unavailable(name)`: a reason only for an open circuit, quoting the
      failure streak and the seconds left. */
  function WhyUnavailable(b: Breaker, name: string, now: real): (r: Explained)
    ensures r.breaker == Touch(b, name)
    ensures r.reason == "" <==> HealthOf(b, name).state != Open
    ensures HealthOf(b, name).state == Open ==>
      r.reason == "circuit open (" + DecimalString(HealthOf(b, name).consecutiveFailures) + " failures, retry in "
                  + DecimalString(RetryIn(HealthOf(b, name), now, b.recovery)) + "s)"
  {
    var h := HealthOf(b, name);
    var reason := if h.state == Open then
      "circuit open (" + DecimalString(h.consecutiveFailures) + " failures, retry in "
      + DecimalString(RetryIn(h, now, b.recovery)) + "s)"
    else "";
    Explained(Touch(b, name), reason)
  }

  /** `record_success(name, response_ms)` */
  function RecordSuccess(b: Breaker, name: string, responseMs: real): (r: Breaker)
    ensures r.health == b.health[name := Succeed(HealthOf(b, name), responseMs)]
    ensures r.threshold == b.threshold && r.recovery == b.recovery
  {
    Put(b, name, Succeed(HealthOf(b, name), responseMs))
  }

  /** `record_failure(name, response_ms)`, with the clock read at `now`. */
  function RecordFailure(b: Breaker, name: string, responseMs: real, now: real): (r: Breaker)
    ensures r.health == b.health[name := Fail(HealthOf(b, name), responseMs, now, b.threshold)]
    ensures r.threshold == b.threshold && r.recovery == b.recovery
  {
    Put(b, name, Fail(HealthOf(b, name), responseMs, now, b.threshold))
  }

  /** `reset(name)`: a known record goes back to the defaults; an unknown
      name is ignored and not created. */
  function Reset(b: Breaker, name: string): (r: Breaker)
    ensures name in b.health ==> r.health == b.health[name := Fresh]
    ensures name !in b.health ==> r == b
    ensures r.health.Keys == b.health.Keys
  {
    if name in b.health then Put(b, name, Fresh) else b
  }

  /** The dictionary `get_health` returns; the average is not rounded here. */
  datatype Report = Report(
    state: string,
    healthScore: int,
    consecutiveFailures: nat,
    avgResponseMs: real,
    totalSuccess: nat,
    totalErrors: nat)

  function StateName(s: CircuitState): string {
    match s
    case Closed => "closed"
    case Open => "open"
    case HalfOpen => "half_open"
  }

  datatype Reported = Reported(breaker: Breaker, report: Report)

  /** `get_health(name)`: a snapshot of the record (created if missing). */
  function GetHealth(b: Breaker, name: string): (r: Reported)
    ensures r.breaker == Touch(b, name)
    ensures var h := HealthOf(b, name);
      r.report == Report(StateName(h.state), HealthScore(h), h.consecutiveFailures, AvgResponseMs(h), h.successCount, h.errorCount)
  {
    var h := HealthOf(b, name);
    Reported(Touch(b, name),
             Report(StateName(h.state), HealthScore(h), h.consecutiveFailures, AvgResponseMs(h), h.successCount, h.errorCount))
  }

  /** `get_all_health()`: one report per provider that already has a record;
      unlike `get_health` it creates none. */
  function GetAllHealth(b: Breaker): (r: map<string, Report>)
    ensures r.Keys == b.health.Keys
  {
    map name | name in b.health :: GetHealth(b, name).report
  }

  /** Each entry of the overview is the report `get_health` gives for that
      name, and asking for it leaves the breaker as it was. */
  lemma {:induction false} AllHealthAgrees(b: Breaker, name: string)
    requires name in b.health
    ensures name in GetAllHealth(b)
    ensures GetAllHealth(b)[name] == GetHealth(b, name).report
    ensures GetHealth(b, name).breaker == b
  {
    assert Touch(b, name) == b;
  }

  // ── Properties of the state machine ────────────────────────────────

  /** What every record of a breaker with a positive threshold satisfies:
      the streak is part of the error count, the window holds at most 20
      latencies, and a closed circuit has not reached the threshold. */
  predicate HealthOk(h: Health, threshold: int) {
    && h.consecutiveFailures <= h.errorCount
    && |h.responseTimes| <= WindowSize
    && (h.state == Closed ==> h.consecutiveFailures < threshold)
  }

  lemma {:induction false} TransitionsKeepHealthOk(h: Health, ms: real, now: real, recovery: real, threshold: int)
    requires threshold >= 1 && HealthOk(h, threshold)
    ensures HealthOk(Fresh, threshold)
    ensures HealthOk(Succeed(h, ms), threshold)
    ensures HealthOk(Fail(h, ms, now, threshold), threshold)
    ensures HealthOk(Probe(h, now, recovery), threshold)
  {
  }

  /** `n` failures in a row, each stamped `now`. */
  function FailTimes(h: Health, n: nat, now: real, threshold: int): Health {
    if n == 0 then h else Fail(FailTimes(h, n - 1, now, threshold), 0.0, now, threshold)
  }

  /** From a fresh record the circuit opens exactly at the `threshold`-th
      failure in a row, for any threshold, and stays open afterwards. */
  lemma {:induction false} OpensExactlyAtThreshold(n: nat, now: real, threshold: int)
    requires threshold >= 1
    ensures FailTimes(Fresh, n, now, threshold).consecutiveFailures == n
    ensures FailTimes(Fresh, n, now, threshold).state == (if n >= threshold then Open else Closed)
  {
    if n > 0 {
      OpensExactlyAtThreshold(n - 1, now, threshold);
    }
  }

  /** A success in the middle of a streak starts the count again: two
      failures, a success and two failures leave a threshold-3 circuit
      closed with a streak of 2. */
  lemma {:induction false} SuccessRestartsStreak(now: real, ms: real)
    ensures var h := FailTimes(Succeed(FailTimes(Fresh, 2, now, 3), ms), 2, now, 3);
      h.state == Closed && h.consecutiveFailures == 2
  {
    var a := FailTimes(Fresh, 2, now, 3);
    assert a.state == Closed by { OpensExactlyAtThreshold(2, now, 3); }
    var b := Succeed(a, ms);
    assert FailTimes(b, 1, now, 3).state == Closed;
  }

  /** Recovery: after the cool-down an open circuit admits one trial; the
      trial's success closes it and its failure re-opens it at once, whatever
      the threshold. */
  lemma {:induction false} HalfOpenTrial(h: Health, now: real, later: real, recovery: real, ms: real, threshold: int)
    requires h.state == Open && now - h.trippedAt >= recovery
    ensures Probe(h, now, recovery).state == HalfOpen
    ensures Succeed(Probe(h, now, recovery), ms).state == Closed
    ensures Fail(Probe(h, now, recovery), ms, later, threshold).state == Open
    ensures Fail(Probe(h, now, recovery), ms, later, threshold).trippedAt == later
  {
  }

  /** Pushing latencies one by one keeps exactly the 20 most recent. */
  lemma {:induction false} WindowKeepsLatest(h: Health, values: seq<real>)
    requires |h.responseTimes| <= WindowSize
    ensures SucceedAll(h, values).responseTimes == KeepLast(h.responseTimes + values, WindowSize)
  {
    assert KeepLast(h.responseTimes, WindowSize) == h.responseTimes;
    SucceedAllWindow(h, values);
    PushAllKeepsLast(h.responseTimes, values, WindowSize);
  }

  function SucceedAll(h: Health, values: seq<real>): Health
    decreases |values|
  {
    if |values| == 0 then h else SucceedAll(Succeed(h, values[0]), values[1..])
  }

  lemma {:induction false} SucceedAllWindow(h: Health, values: seq<real>)
    ensures SucceedAll(h, values).responseTimes == PushAll(h.responseTimes, values, WindowSize)
    decreases |values|
  {
    if |values| > 0 {
      SucceedAllWindow(Succeed(h, values[0]), values[1..]);
    }
  }
}
