/**
 The circuit breaker over the primary captcha provider. Health probes and bad siteverify
 answers move a failure counter; while the circuit is open the built-in proof-of-javascript
 provider stands in.
 */
module CircuitBreaker {
  import opened GoCache

  datatype CaptchaConfig = CaptchaConfig(js: string, key: string, validate: string)

  /** Passes are checked by the middleware itself when the validation address is this word. */
  const INTERNAL := "internal"

  const POJ := CaptchaConfig("/captcha-protect-poj.js", "poj-captcha", INTERNAL)

  /** What a HEAD request to the provider's health address came to. */
  datatype ProbeResult = RequestError | TransportError | Answered(statusCode: int)

  /** Everything that can reach the breaker: a probe, or the status of a siteverify answer. */
  datatype Event = Probe(result: ProbeResult) | Siteverify(statusCode: int)

  datatype CircuitState = Closed | Open

  datatype BreakerState = BreakerState(circuit: CircuitState, failureCount: int64)

  const INITIAL := BreakerState(Closed, 0)

  function Failure(s: BreakerState, threshold: int64): BreakerState {
    var count := Wrap64(s.failureCount + 1);
    BreakerState(if count >= threshold then Open else s.circuit, count)
  }

  predicate IsHealthy(result: ProbeResult) {
    result.Answered? && result.statusCode != 404 && 200 <= result.statusCode < 500
  }

  /** A healthy probe is the only thing that forgives; a good siteverify answer does not. */
  predicate Resets(e: Event) {
    e.Probe? && IsHealthy(e.result)
  }

  predicate Fails(e: Event) {
    match e
    case Probe(result) => !IsHealthy(result)
    case Siteverify(statusCode) => statusCode < 200 || 500 <= statusCode
  }

  function Next(s: BreakerState, e: Event, threshold: int64): BreakerState {
    if Resets(e) then INITIAL else if Fails(e) then Failure(s, threshold) else s
  }

  function After(events: seq<Event>, threshold: int64): BreakerState {
    if events == [] then INITIAL else Next(After(events[..|events| - 1], threshold), events[|events| - 1], threshold)
  }

  // --------------------------------------------------------------------------
  // The history the state stands for
  // --------------------------------------------------------------------------

  /** Where the history after the last healthy probe begins. */
  ghost predicate IsLastReset(events: seq<Event>, start: nat) {
    && start <= |events|
    && (start == 0 || Resets(events[start - 1]))
    && forall i :: start <= i < |events| ==> !Resets(events[i])
  }

  ghost function FailuresFrom(events: seq<Event>, start: nat): set<int> {
    set i | start <= i < |events| && Fails(events[i])
  }

  /** So many failures since the last healthy probe; harmless siteverify answers do not count. */
  ghost predicate FailedInARow(events: seq<Event>, n: nat) {
    exists start: nat :: IsLastReset(events, start) && |FailuresFrom(events, start)| == n
  }

  lemma LastResetIsUnique(events: seq<Event>, i: nat, j: nat)
    requires IsLastReset(events, i) && IsLastReset(events, j)
    ensures i == j
  {
  }

  lemma FailuresSnoc(events: seq<Event>, e: Event, start: nat)
    requires start <= |events|
    ensures |FailuresFrom(events + [e], start)| == |FailuresFrom(events, start)| + (if Fails(e) then 1 else 0)
  {
    var more := events + [e];
    assert forall i :: 0 <= i < |events| ==> more[i] == events[i];
    var before := FailuresFrom(events, start);
    if Fails(e) {
      assert FailuresFrom(more, start) == before + {|events|};
    } else {
      assert FailuresFrom(more, start) == before;
    }
  }

  lemma FailuresAreBounded(events: seq<Event>, start: nat)
    requires start <= |events|
    ensures |FailuresFrom(events, start)| <= |events|
    decreases |events|
  {
    if |events| == start {
      assert FailuresFrom(events, start) == {};
    } else {
      var shorter := events[..|events| - 1];
      assert events == shorter + [events[|events| - 1]];
      FailuresAreBounded(shorter, start);
      FailuresSnoc(shorter, events[|events| - 1], start);
    }
  }

  /**
   In every run of fewer than 2^63 events the failure count is the number of failures since
   the last healthy probe, and the circuit is open exactly when there was at least one and
   they reach the threshold.
   */
  lemma {:induction false} StateIsHistory(events: seq<Event>, threshold: int64) returns (start: nat)
    requires |events| < 0x8000_0000_0000_0000
    ensures IsLastReset(events, start)
    ensures var n := |FailuresFrom(events, start)|;
            && After(events, threshold).failureCount == n
            && (After(events, threshold).circuit.Open? <==> n >= 1 && n >= threshold)
  {
    if events == [] {
      start := 0;
      assert FailuresFrom(events, start) == {};
    } else {
      var shorter, e := events[..|events| - 1], events[|events| - 1];
      assert events == shorter + [e];
      start := StateIsHistory(shorter, threshold);
      if Resets(e) {
        start := |events|;
        assert FailuresFrom(events, start) == {};
      } else {
        FailuresSnoc(shorter, e, start);
        FailuresAreBounded(shorter, start);
      }
    }
  }

  lemma CircuitOpensExactly(events: seq<Event>, threshold: int64, n: nat)
    requires |events| < 0x8000_0000_0000_0000 && 1 <= threshold
    requires FailedInARow(events, n)
    ensures After(events, threshold).failureCount == n
    ensures After(events, threshold).circuit.Open? <==> n >= threshold
  {
    var found := StateIsHistory(events, threshold);
    var start: nat :| IsLastReset(events, start) && |FailuresFrom(events, start)| == n;
    LastResetIsUnique(events, start, found);
  }

  lemma SomeFailedInARow(events: seq<Event>) returns (n: nat)
    requires |events| < 0x8000_0000_0000_0000
    ensures FailedInARow(events, n)
  {
    var start := StateIsHistory(events, 1);
    n := |FailuresFrom(events, start)|;
  }

  /**
   What each answer does to the state that any history has led to, by its number: a probe
   answered 200 to 499 other than 404 forgives everything; any other outcome of a probe, and a
   siteverify status below 200 or from 500, is one more failure; other statuses change nothing.
   */
  lemma AnswersByNumber(events: seq<Event>, threshold: int64, code: int)
    requires |events| < 0x7FFF_FFFF_FFFF_FFFF
    ensures var before := After(events, threshold);
            var probed := After(events + [Probe(Answered(code))], threshold);
            var verified := After(events + [Siteverify(code)], threshold);
            && (200 <= code < 500 && code != 404 ==> probed.failureCount == 0 && probed.circuit == Closed)
            && (code < 200 || code >= 500 || code == 404 ==>
                  && probed.failureCount == before.failureCount + 1
                  && (probed.circuit == Open <==> before.circuit == Open || probed.failureCount >= threshold))
            && (200 <= code < 500 ==> verified == before)
            && (code < 200 || code >= 500 ==>
                  && verified.failureCount == before.failureCount + 1
                  && (verified.circuit == Open <==> before.circuit == Open || verified.failureCount >= threshold))
            && (forall e :: e == Probe(RequestError) || e == Probe(TransportError) ==>
                  && After(events + [e], threshold).failureCount == before.failureCount + 1
                  && (After(events + [e], threshold).circuit == Open <==>
                        before.circuit == Open || before.failureCount + 1 >= threshold))
  {
    var start := StateIsHistory(events, threshold);
    FailuresAreBounded(events, start);
    forall e ensures After(events + [e], threshold) == Next(After(events, threshold), e, threshold) {
      assert (events + [e])[..|events|] == events;
    }
  }

  /**
   The circuit after any history, by numbers alone: open exactly when since some point no probe
   was answered 200 to 499 other than 404, and from there on the probes without such an answer
   and the siteverify statuses outside 200 to 499 reach the threshold.
   */
  lemma CircuitByNumbers(events: seq<Event>, threshold: int64)
    requires |events| < 0x8000_0000_0000_0000 && 1 <= threshold
    ensures After(events, threshold).circuit == Open <==>
            exists start: nat :: start <= |events| && NoneHealthySince(events, start)
              && |BadSince(events, start)| >= threshold
  {
    var last := StateIsHistory(events, threshold);
    forall start: nat | start <= |events| && NoneHealthySince(events, start)
      ensures |BadSince(events, start)| <= |FailuresFrom(events, last)|
    {
      assert last > 0 ==> Resets(events[last - 1]);
      assert BadSince(events, start) <= FailuresFrom(events, last);
      SubsetIsSmaller(BadSince(events, start), FailuresFrom(events, last));
    }
    assert NoneHealthySince(events, last);
    assert BadSince(events, last) == FailuresFrom(events, last);
  }

  lemma SubsetIsSmaller(a: set<int>, b: set<int>)
    requires a <= b
    ensures |a| <= |b|
  {
    assert b == a + (b - a);
  }

  ghost predicate NoneHealthySince(events: seq<Event>, start: nat) {
    forall i :: start <= i < |events| && events[i].Probe? && events[i].result.Answered? ==>
      var code := events[i].result.statusCode;
      code < 200 || code >= 500 || code == 404
  }

  ghost function BadSince(events: seq<Event>, start: nat): set<int> {
    set i | start <= i < |events|
        && match events[i]
           case Probe(Answered(code)) => code < 200 || code >= 500 || code == 404
           case Probe(_) => true
           case Siteverify(code) => code < 200 || code >= 500
  }

  /** As many probes in a row as the threshold that were not answered, or badly, open the circuit. */
  lemma BadProbesOpen(events: seq<Event>, probes: seq<ProbeResult>, threshold: int64)
    requires |events| + |probes| < 0x8000_0000_0000_0000 && 1 <= threshold <= |probes|
    requires forall i :: 0 <= i < |probes| && probes[i].Answered? ==>
               probes[i].statusCode < 200 || probes[i].statusCode >= 500 || probes[i].statusCode == 404
    ensures After(events + seq(|probes|, i requires 0 <= i < |probes| => Probe(probes[i])), threshold).circuit == Open
  {
    var more := seq(|probes|, i requires 0 <= i < |probes| => Probe(probes[i]));
    var all := events + more;
    assert forall i :: |events| <= i < |all| ==> all[i] == more[i - |events|];
    CircuitByNumbers(all, threshold);
    AllBad(all, |events|);
    assert NoneHealthySince(all, |events|);
  }

  lemma {:induction false} AllBad(events: seq<Event>, start: nat)
    requires start <= |events|
    requires forall i :: start <= i < |events| ==>
               && events[i].Probe?
               && (events[i].result.Answered? ==>
                     var code := events[i].result.statusCode; code < 200 || code >= 500 || code == 404)
    ensures |BadSince(events, start)| == |events| - start
    decreases |events|
  {
    if |events| == start {
      assert BadSince(events, start) == {};
    } else {
      var n := |events| - 1;
      AllBad(events[..n], start);
      assert BadSince(events, start) == BadSince(events[..n], start) + {n};
    }
  }

  predicate EndsWith(events: seq<Event>, e: Event) {
    events != [] && events[|events| - 1] == e
  }

  class Breaker {
    const primary: CaptchaConfig
    const failureThreshold: int64
    const hasFallbackProvider: bool
    var circuitState: CircuitState
    var healthCheckFailureCount: int64
    ghost var events: seq<Event>
    // what the probes and the other requests will bring; only the breaker with a fallback is probed
    var schedule: seq<seq<Event>>

    ghost predicate Valid()
      reads this
    {
      && BreakerState(circuitState, healthCheckFailureCount) == After(events, failureThreshold)
      && (hasFallbackProvider ==> failureThreshold >= 1 && primary.validate != INTERNAL)
      && (primary.validate == INTERNAL ==> events == [])
    }

    /** `NewCaptchaProtect`: proof-of-javascript needs no fallback, and both settings must be positive. */
    constructor (primary: CaptchaConfig, periodSeconds: int64, failureThreshold: int64,
                 schedule: seq<seq<Event>>)
      ensures Valid() && events == [] && circuitState == Closed
      ensures this.primary == primary && this.failureThreshold == failureThreshold && this.schedule == schedule
      ensures hasFallbackProvider <==> primary.validate != INTERNAL && periodSeconds > 0 && failureThreshold > 0
    {
      this.primary := primary;
      this.failureThreshold := failureThreshold;
      this.hasFallbackProvider := primary.validate != INTERNAL && periodSeconds > 0 && failureThreshold > 0;
      this.circuitState := Closed;
      this.healthCheckFailureCount := 0;
      this.events := [];
      this.schedule := schedule;
    }

    method RecordHealthCheckSuccess()
      modifies this`circuitState, this`healthCheckFailureCount
      ensures BreakerState(circuitState, healthCheckFailureCount) == INITIAL
    {
      healthCheckFailureCount := 0;
      if circuitState == Open {
        circuitState := Closed;
      }
    }

    method RecordHealthCheckFailure()
      modifies this`circuitState, this`healthCheckFailureCount
      ensures BreakerState(circuitState, healthCheckFailureCount)
           == Failure(old(BreakerState(circuitState, healthCheckFailureCount)), failureThreshold)
    {
      healthCheckFailureCount := Wrap64(healthCheckFailureCount + 1);
      if healthCheckFailureCount >= failureThreshold && circuitState == Closed {
        circuitState := Open;
      }
    }

    method PerformHealthCheck(result: ProbeResult)
      requires Valid() && primary.validate != INTERNAL
      modifies this`circuitState, this`healthCheckFailureCount, this`events
      ensures Valid() && events == old(events) + [Probe(result)]
      ensures result.Answered? && 200 <= result.statusCode < 500 && result.statusCode != 404 ==>
                healthCheckFailureCount == 0 && circuitState == Closed
      ensures !(result.Answered? && 200 <= result.statusCode < 500 && result.statusCode != 404)
              && old(healthCheckFailureCount) < 0x7FFF_FFFF_FFFF_FFFF ==>
                && healthCheckFailureCount == old(healthCheckFailureCount) + 1
                && (circuitState == Open <==>
                      old(circuitState) == Open || healthCheckFailureCount >= failureThreshold)
    {
      if result.Answered? && result.statusCode != 404 && result.statusCode >= 200 && result.statusCode < 500 {
        RecordHealthCheckSuccess();
      } else {
        RecordHealthCheckFailure();
      }
      events := events + [Probe(result)];
    }

    /** What `verifyChallengePage` does with the status of a siteverify answer. */
    method NoteSiteverify(statusCode: int)
      requires Valid() && primary.validate != INTERNAL
      modifies this`circuitState, this`healthCheckFailureCount, this`events
      ensures Valid() && events == old(events) + [Siteverify(statusCode)]
      ensures 200 <= statusCode < 500 ==>
                healthCheckFailureCount == old(healthCheckFailureCount) && circuitState == old(circuitState)
      ensures !(200 <= statusCode < 500) && old(healthCheckFailureCount) < 0x7FFF_FFFF_FFFF_FFFF ==>
                && healthCheckFailureCount == old(healthCheckFailureCount) + 1
                && (circuitState == Open <==>
                      old(circuitState) == Open || healthCheckFailureCount >= failureThreshold)
    {
      if statusCode < 200 || statusCode >= 500 {
        RecordHealthCheckFailure();
      }
      events := events + [Siteverify(statusCode)];
    }

    /** Nothing ever opens the circuit of a middleware that checks passes itself. */
    lemma InternalStaysClosed()
      requires Valid()
      ensures primary.validate == INTERNAL ==> circuitState == Closed
    {
    }

    ghost function Active(): CaptchaConfig
      reads this
    {
      if hasFallbackProvider && circuitState == Open then POJ else primary
    }

    /** The stand-in is active exactly while the failures in a row reach the threshold. */
    method GetActiveCaptchaConfig() returns (active: CaptchaConfig)
      requires Valid()
      ensures active == Active()
      ensures active == if hasFallbackProvider && circuitState == Open
                        then CaptchaConfig("/captcha-protect-poj.js", "poj-captcha", "internal") else primary
      ensures |events| < 0x8000_0000_0000_0000 ==> exists n: nat :: FailedInARow(events, n)
      ensures |events| < 0x8000_0000_0000_0000 ==> forall n: nat :: FailedInARow(events, n) ==>
                active == if hasFallbackProvider && n >= failureThreshold then POJ else primary
    {
      if |events| < 0x8000_0000_0000_0000 {
        var _ := SomeFailedInARow(events);
      }
      if hasFallbackProvider && |events| < 0x8000_0000_0000_0000 {
        forall n: nat | FailedInARow(events, n)
          ensures circuitState.Open? <==> n >= failureThreshold
        {
          CircuitOpensExactly(events, failureThreshold, n);
        }
      }
      if !hasFallbackProvider {
        return primary;
      }
      if circuitState == Open {
        return POJ;
      }
      return primary;
    }

    /** Which events of others reach the breaker: only one with a fallback is probed. */
    function Reaching(batch: seq<Event>): seq<Event> {
      if batch == [] || primary.validate == INTERNAL then []
      else
        var e := batch[|batch| - 1];
        Reaching(batch[..|batch| - 1]) + (if e.Siteverify? || hasFallbackProvider then [e] else [])
    }

    lemma {:induction false} AllReach(batch: seq<Event>)
      requires hasFallbackProvider && primary.validate != INTERNAL
      ensures Reaching(batch) == batch
    {
      if batch != [] {
        AllReach(batch[..|batch| - 1]);
      }
    }

    /** What the others do next. */
    ghost function Next(): seq<Event>
      reads this
    {
      if schedule == [] then [] else Reaching(schedule[0])
    }

    method OtherRuns(e: Event)
      requires Valid() && primary.validate != INTERNAL
      modifies this`circuitState, this`healthCheckFailureCount, this`events
      ensures Valid() && events == old(events) + (if e.Siteverify? || hasFallbackProvider then [e] else [])
    {
      match e {
        case Probe(result) =>
          if hasFallbackProvider {
            PerformHealthCheck(result);
          }
        case Siteverify(statusCode) =>
          NoteSiteverify(statusCode);
      }
    }

    /** The health check loop and other requests do their next batch of events, whatever it is. */
    method OthersRun()
      requires Valid()
      modifies this
      ensures Valid() && events == old(events) + old(Next())
      ensures schedule == if old(schedule) == [] then [] else old(schedule)[1..]
      ensures hasFallbackProvider && old(schedule) != [] ==> events == old(events) + old(schedule)[0]
      ensures primary.validate == "internal" || old(schedule) == [] ==> events == old(events)
    {
      hide After;
      if schedule == [] {
        return;
      }
      var batch := schedule[0];
      schedule := schedule[1..];
      for i := 0 to |batch|
        invariant Valid() && schedule == old(schedule)[1..]
        invariant events == old(events) + Reaching(batch[..i])
      {
        assert batch[..i + 1][..i] == batch[..i];
        if primary.validate != INTERNAL {
          OtherRuns(batch[i]);
        }
      }
      assert batch[..|batch|] == batch;
      if hasFallbackProvider {
        AllReach(batch);
      }
    }
  }
}
