/**
 A concrete history: a pass during an outage of the provider cuts the pass of the day before it
 short, for a visitor who is remembered by address.
 */
module OutageExample {
  import opened Wrappers
  import opened GoCache
  import opened Counters
  import opened CircuitBreaker
  import opened Sessions

  const TURNSTILE := CaptchaConfig("https://challenges.cloudflare.com/turnstile/v0/api.js", TURNSTILE_KEY,
                                   "https://challenges.cloudflare.com/turnstile/v0/siteverify")

  /** "203.0.113.7" */
  const VISITOR: Key := [50, 48, 51, 46, 48, 46, 49, 49, 51, 46, 55]
  const DAY: int64 := 86400

  /** In November 2023. */
  const START: int64 := 1_700_000_000 * SECOND

  lemma OneFailureOpens()
    ensures After([Siteverify(200)], 1).circuit == Closed
    ensures After([Siteverify(200)] + [Probe(TransportError)], 1).circuit == Open
  {
    var one, two := [Siteverify(200)], [Siteverify(200)] + [Probe(TransportError)];
    assert one[..0] == [] && two[..1] == one;
  }

  /** A visitor passes the provider's challenge. */
  method PassProvider(bc: CaptchaProtect, hostname: string)
    requires bc.Valid() && bc.Quiet() && !bc.sessionMode && bc.tokens.Ready(1)
    requires bc.breaker.primary == TURNSTILE && bc.breaker.failureThreshold == 1
    requires bc.breaker.events == [] && bc.breaker.circuitState == Closed
    modifies bc`solves, bc.counters`stateDirty, bc.verifiedCache, bc.breaker, bc.tokens, bc.clock
    ensures bc.Valid() && bc.Quiet() && bc.clock.time == old(bc.clock.time)
    ensures bc.breaker.events == [Siteverify(200)]
    ensures bc.solves == old(bc.solves) + [Solve(VISITOR, bc.clock.time, DEFAULT_EXPIRATION)]
  {
    hide Agrees, Replay, FreshKeys, FromTokens, Reloaded, IsSessionKey, Breaker.Valid, After, Wrap64;
    var answer := CaptchaResponse(true, hostname, Some(bc.clock.time));
    var status, _ := bc.VerifyChallengePage(VISITOR, map[TURNSTILE_KEY + "-response" := "x"], hostname,
                                            Answer(200, Some(answer)));
    assert status == FOUND;
    assert bc.solves == bc.solves[..|old(bc.solves)|] + [bc.solves[|old(bc.solves)|]];
  }

  /** A visitor passes through the stand-in while the circuit is open. */
  method PassStandIn(bc: CaptchaProtect)
    requires bc.Valid() && bc.Quiet() && !bc.sessionMode
    requires bc.breaker.hasFallbackProvider && bc.breaker.circuitState == Open
    modifies bc`solves, bc.counters`stateDirty, bc.verifiedCache, bc.breaker, bc.tokens, bc.clock
    ensures bc.Valid() && bc.Quiet() && bc.clock.time == old(bc.clock.time)
    ensures bc.solves == old(bc.solves) + [Solve(VISITOR, bc.clock.time, HOUR)]
  {
    hide Agrees, Replay, FreshKeys, FromTokens, Reloaded, IsSessionKey, Wrap64;
    var status, _ := bc.VerifyChallengePage(VISITOR, map[POJ.key + "-response" := "x"], "", NoRequest);
    assert status == FOUND;
    assert bc.solves == bc.solves[..|old(bc.solves)|] + [bc.solves[|old(bc.solves)|]];
  }

  method FreshStart() returns (bc: CaptchaProtect)
    ensures bc.Valid() && bc.Quiet() && !bc.sessionMode && bc.tokens.Ready(1) && bc.window == DAY
    ensures fresh(bc) && fresh(bc.counters) && fresh(bc.verifiedCache) && fresh(bc.breaker)
    ensures fresh(bc.tokens) && fresh(bc.clock)
    ensures bc.solves == [] && bc.initial == map[] && bc.clock.time == START
    ensures bc.breaker.primary == TURNSTILE && bc.breaker.failureThreshold == 1 && bc.breaker.hasFallbackProvider
    ensures bc.breaker.events == [] && bc.breaker.circuitState == Closed
  {
    hide Agrees, Replay, FreshKeys, FromTokens, Reloaded, IsSessionKey, After, Wrap64;
    var breaker := new Breaker(TURNSTILE, 60, 1, []);
    var counters := new ChangeCounters(false);
    var tokens := new TokenSource([Some([1])], {});
    var clock := new Clock(START, []);
    bc := new CaptchaProtect(DAY, false, false, map[], counters, breaker, tokens, clock);
  }

  /** The provider stops answering its health check. */
  method ProviderFails(bc: CaptchaProtect)
    requires bc.Valid() && bc.Quiet() && bc.breaker.primary == TURNSTILE && bc.breaker.failureThreshold == 1
    requires bc.breaker.events == [Siteverify(200)]
    modifies bc.breaker
    ensures bc.Valid() && bc.Quiet() && bc.breaker.circuitState == Open
  {
    hide Agrees, Replay, FreshKeys, FromTokens, Reloaded, IsSessionKey, After, Wrap64;
    OneFailureOpens();
    bc.breaker.PerformHealthCheck(TransportError);
  }

  method TimePasses(bc: CaptchaProtect, d: nat)
    requires bc.Valid() && bc.Quiet()
    modifies bc.clock`time
    ensures bc.Valid() && bc.Quiet() && bc.clock.time == old(bc.clock.time) + d
  {
    hide Agrees, Replay, FreshKeys, FromTokens, Reloaded, IsSessionKey, Breaker.Valid, Wrap64;
    AgreesLater(bc.verifiedCache.items, Replay(bc.initial, bc.solves, WindowDuration(bc.window)),
                bc.clock.time, bc.clock.time + d);
    bc.clock.Advance(d);
  }

  lemma CutShort(solves: seq<Solve>, now: int)
    requires solves == [Solve(VISITOR, START, DEFAULT_EXPIRATION), Solve(VISITOR, START + 1, HOUR)]
    requires now == START + 1 + 2 * HOUR
    ensures Live(solves[0], WindowDuration(DAY), now) && !LatestIsLive(solves, WindowDuration(DAY), VISITOR, now)
    ensures Solved(solves, VISITOR)
  {
    assert solves[1].key == VISITOR;
    assert forall i: nat :: IsLatest(solves, VISITOR, i) ==> i == 1;
  }

  /**
   A visitor passes with a window of a day, the provider goes down, the visitor passes again
   through the stand-in, and two hours later is challenged, well within the day.
   */
  method OutageShortensPass() returns (ghost solves: seq<Solve>, now: int, verified: bool)
    ensures |solves| == 2 && solves[0].key == solves[1].key == VISITOR && solves[0].at < solves[1].at < now
    ensures Live(solves[0], WindowDuration(DAY), now) && !verified
  {
    hide Agrees, Replay, FreshKeys, FromTokens, Reloaded, IsSessionKey, After, Wrap64, LatestIsLive, Solved, Live;
    hide CaptchaProtect.Valid, TokenSource.Ready;
    var bc := FreshStart();
    PassProvider(bc, "example.org");
    ProviderFails(bc);
    TimePasses(bc, 1);
    PassStandIn(bc);
    TimePasses(bc, 2 * HOUR);
    solves := bc.solves;
    verified := bc.IsVerified(VISITOR, None);
    now := bc.clock.time;
    assert solves == [Solve(VISITOR, START, DEFAULT_EXPIRATION), Solve(VISITOR, START + 1, HOUR)];
    CutShort(solves, now);
  }

  lemma HealthyProbeCloses()
    ensures After([Siteverify(200)] + [Probe(TransportError)] + [Probe(Answered(200))], 1).circuit == Closed
  {
    var two := [Siteverify(200)] + [Probe(TransportError)];
    assert (two + [Probe(Answered(200))])[..2] == two;
  }

  /** A visitor passes through the stand-in while the provider comes back. */
  method PassWhileClosing(bc: CaptchaProtect)
    requires bc.Valid() && bc.clock.Still() && !bc.sessionMode
    requires bc.breaker.primary == TURNSTILE && bc.breaker.failureThreshold == 1 && bc.breaker.hasFallbackProvider
    requires bc.breaker.circuitState == Open && bc.breaker.events == [Siteverify(200)] + [Probe(TransportError)]
    requires bc.breaker.schedule == [[Probe(Answered(200))]]
    modifies bc`solves, bc.counters`stateDirty, bc.verifiedCache, bc.breaker, bc.tokens, bc.clock
    ensures bc.Valid() && bc.breaker.circuitState == Closed && bc.clock.time == old(bc.clock.time)
    ensures bc.solves == old(bc.solves) + [Solve(VISITOR, bc.clock.time, DEFAULT_EXPIRATION)]
  {
    hide Agrees, Replay, FreshKeys, FromTokens, Reloaded, IsSessionKey, After, Wrap64;
    var batch := [Probe(Answered(200))];
    assert batch[..0] == [];
    assert bc.breaker.Next() == batch;
    var status, _ := bc.VerifyChallengePage(VISITOR, map[POJ.key + "-response" := "x"], "", NoRequest);
    assert status == FOUND;
    HealthyProbeCloses();
    assert bc.solves == bc.solves[..|old(bc.solves)|] + [bc.solves[|old(bc.solves)|]];
  }

  /**
   The provider comes back while a visitor is passing through the stand-in: the first look at the
   circuit finds it open, the second closed, and a pass without the provider lasts a whole day.
   */
  method CircuitClosesBetween() returns (active: CaptchaConfig, after: CaptchaConfig, ghost passes: seq<Solve>)
    ensures active == POJ && after == TURNSTILE
    ensures |passes| == 2 && passes[1] == Solve(VISITOR, START, DEFAULT_EXPIRATION)
    ensures LivesUntil(passes[1], WindowDuration(DAY), START + DAY * SECOND)
  {
    hide Agrees, Replay, FreshKeys, FromTokens, Reloaded, IsSessionKey, After, Wrap64, LivesUntil;
    var bc := FreshStart();
    PassProvider(bc, "example.org");
    OneFailureOpens();
    bc.breaker.PerformHealthCheck(TransportError);
    bc.breaker.schedule := [[Probe(Answered(200))]];
    active := bc.breaker.GetActiveCaptchaConfig();
    PassWhileClosing(bc);
    passes := bc.solves;
    after := bc.breaker.GetActiveCaptchaConfig();
    DayIsKept(passes[1]);
  }

  lemma DayIsKept(pass: Solve)
    requires pass.at == START && pass.exp == DEFAULT_EXPIRATION
    ensures LivesUntil(pass, WindowDuration(DAY), pass.at + DAY * SECOND)
  {
  }
}
