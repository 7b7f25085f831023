/**
 Passing a challenge and being let through afterwards: the verified cache as a function of the
 history of passed challenges, and the two request paths that write and read it.
 */
module Sessions {
  import opened Wrappers
  import opened Utf8
  import opened GoCache
  import opened CircuitBreaker
  import opened Counters

  const SECOND: int64 := 1_000_000_000
  const HOUR: int64 := 3600 * SECOND
  const MAX_CHALLENGE_AGE: int64 := 300 * SECOND
  const INT64_MAX: int64 := 0x7FFF_FFFF_FFFF_FFFF
  const TEST_HOSTNAME := "example.com"
  const SESSION_PREFIX: seq<byte> := [115, 101, 115, 115, 105, 111, 110, 58]

  /** A passed challenge: who passed, when, and for how long (0 stands for the window). */
  datatype Solve = Solve(key: Key, at: int, exp: int64)

  function ItemOf(solve: Solve, default: int64): Item {
    Item(BoolValue(true), ExpirationOf(solve.at, solve.exp, default))
  }

  // --------------------------------------------------------------------------
  // The cache as a function of the history
  // --------------------------------------------------------------------------

  /** The cache after a history of solves, if nothing were ever deleted. */
  function Replay(initial: map<Key, Item>, solves: seq<Solve>, default: int64): map<Key, Item> {
    if solves == [] then initial
    else
      var last := solves[|solves| - 1];
      Replay(initial, solves[..|solves| - 1], default)[last.key := ItemOf(last, default)]
  }

  /** Deleting expired items is the only liberty the real cache takes. */
  ghost predicate Agrees(items: map<Key, Item>, replay: map<Key, Item>, now: int) {
    && (forall k :: k in items ==> k in replay && items[k] == replay[k])
    && (forall k :: k in replay && k !in items ==> replay[k].Expired(now))
  }

  lemma AgreeingAnswers(items: map<Key, Item>, replay: map<Key, Item>, k: Key, now: int, later: int)
    requires Agrees(items, replay, now) && now <= later
    ensures Lookup(items, k, later) == Lookup(replay, k, later)
  {
  }

  ghost predicate IsLatest(solves: seq<Solve>, k: Key, i: nat) {
    i < |solves| && solves[i].key == k && forall j :: i < j < |solves| ==> solves[j].key != k
  }

  predicate Solved(solves: seq<Solve>, k: Key) {
    exists i :: 0 <= i < |solves| && solves[i].key == k
  }

  predicate Live(solve: Solve, default: int64, t: int) {
    !ItemOf(solve, default).Expired(t)
  }

  /** The one that counts for `k` is the latest, and it is alive. */
  ghost predicate LatestIsLive(solves: seq<Solve>, default: int64, k: Key, t: int) {
    exists i: nat :: IsLatest(solves, k, i) && Live(solves[i], default, t)
  }

  /** Some solve for `k` is alive. */
  ghost predicate AnyIsLive(solves: seq<Solve>, default: int64, k: Key, t: int) {
    exists i :: 0 <= i < |solves| && solves[i].key == k && Live(solves[i], default, t)
  }

  /** The latest solve alone decides, even when an earlier one would have lasted longer. */
  lemma {:induction false} LatestSolveDecides(initial: map<Key, Item>, solves: seq<Solve>, default: int64,
                                                k: Key, t: int)
    ensures Lookup(Replay(initial, solves, default), k, t).Some? <==>
            || LatestIsLive(solves, default, k, t)
            || (!Solved(solves, k) && Lookup(initial, k, t).Some?)
  {
    if solves != [] {
      var n := |solves| - 1;
      var shorter, last := solves[..n], solves[n];
      assert solves == shorter + [last];
      LatestSolveDecides(initial, shorter, default, k, t);
      if last.key == k {
        LastIsLatest(shorter, last, default, t);
      } else {
        OtherKeysDoNotMatter(shorter, last, default, k, t);
      }
      hide LatestIsLive, Solved;
    }
  }

  lemma LastIsLatest(shorter: seq<Solve>, last: Solve, default: int64, t: int)
    ensures LatestIsLive(shorter + [last], default, last.key, t) <==> Live(last, default, t)
    ensures Solved(shorter + [last], last.key)
  {
    var solves := shorter + [last];
    assert solves[|shorter|] == last;
    assert IsLatest(solves, last.key, |shorter|);
    assert forall i: nat :: IsLatest(solves, last.key, i) ==> i == |shorter|;
  }

  lemma OtherKeysDoNotMatter(shorter: seq<Solve>, last: Solve, default: int64, k: Key, t: int)
    requires last.key != k
    ensures LatestIsLive(shorter + [last], default, k, t) <==> LatestIsLive(shorter, default, k, t)
    ensures Solved(shorter + [last], k) <==> Solved(shorter, k)
  {
    var solves := shorter + [last];
    SolvedSnoc(shorter, last, k);
    if i: nat :| IsLatest(shorter, k, i) && Live(shorter[i], default, t) {
      assert IsLatest(solves, k, i);
    }
    if i: nat :| IsLatest(solves, k, i) && Live(solves[i], default, t) {
      assert forall j :: i <= j < |shorter| ==> shorter[j] == solves[j];
      assert IsLatest(shorter, k, i);
    }
  }

  lemma SolvedSnoc(solves: seq<Solve>, last: Solve, k: Key)
    requires last.key != k
    ensures Solved(solves + [last], k) <==> Solved(solves, k)
  {
    var more := solves + [last];
    if i :| 0 <= i < |more| && more[i].key == k {
      assert solves[i].key == k;
    }
    if i :| 0 <= i < |solves| && solves[i].key == k {
      assert more[i].key == k;
    }
  }

  ghost predicate FreshKeys(initial: map<Key, Item>, solves: seq<Solve>) {
    && (forall i :: 0 <= i < |solves| ==> solves[i].key !in initial)
    && (forall i, j :: 0 <= i < j < |solves| ==> solves[i].key != solves[j].key)
  }

  lemma SessionPrefixText(i: nat)
    requires i < 8
    ensures |SESSION_PREFIX| == 8 && SESSION_PREFIX[i] == "session:"[i] as int
  {
  }

  /** Every key of the history is a session key whose token was issued. */
  ghost predicate FromTokens(solves: seq<Solve>, issued: set<Key>) {
    forall i :: 0 <= i < |solves| ==> IsSessionKey(solves[i].key) && solves[i].key[|SESSION_PREFIX|..] in issued
  }

  predicate IsSessionKey(k: Key) {
    |SESSION_PREFIX| <= |k| && k[..|SESSION_PREFIX|] == SESSION_PREFIX
  }

  /** The tokens of the sessions the cache started with count as issued. */
  ghost predicate Reloaded(initial: map<Key, Item>, issued: set<Key>) {
    forall k :: k in initial && IsSessionKey(k) ==> k[|SESSION_PREFIX|..] in issued
  }

  lemma FreshTokenIsFreshKey(initial: map<Key, Item>, solves: seq<Solve>, issued: set<Key>, token: Key, solve: Solve)
    requires Reloaded(initial, issued) && FromTokens(solves, issued) && FreshKeys(initial, solves)
    requires token !in issued && solve.key == SESSION_PREFIX + token
    ensures Reloaded(initial, issued + {token})
    ensures FromTokens(solves + [solve], issued + {token}) && FreshKeys(initial, solves + [solve])
  {
    assert solve.key[..|SESSION_PREFIX|] == SESSION_PREFIX && solve.key[|SESSION_PREFIX|..] == token;
    assert IsSessionKey(solve.key);
  }

  /** Drawing a token for another purpose changes nothing. */
  lemma TokensGrow(initial: map<Key, Item>, solves: seq<Solve>, before: set<Key>, after: set<Key>)
    requires before <= after && Reloaded(initial, before) && FromTokens(solves, before)
    ensures Reloaded(initial, after) && FromTokens(solves, after)
  {
  }

  lemma AgreesSnoc(items: map<Key, Item>, initial: map<Key, Item>, solves: seq<Solve>, solve: Solve,
                   default: int64, now: int, later: int)
    requires Agrees(items, Replay(initial, solves, default), now) && now <= later
    ensures Agrees(items[solve.key := ItemOf(solve, default)], Replay(initial, solves + [solve], default), later)
  {
    assert (solves + [solve])[..|solves|] == solves;
  }

  lemma AgreesLater(items: map<Key, Item>, replay: map<Key, Item>, now: int, later: int)
    requires Agrees(items, replay, now) && now <= later
    ensures Agrees(items, replay, later) && Agrees(Unexpired(items, later), replay, later)
  {
  }

  /**
   With a fresh key for every solve, being verified is having solved within the lifetime, or
   having been verified from the start.
   */
  lemma {:induction false} FreshSolvesLast(initial: map<Key, Item>, solves: seq<Solve>, default: int64, k: Key, t: int)
    requires FreshKeys(initial, solves)
    ensures Lookup(Replay(initial, solves, default), k, t).Some? <==>
            AnyIsLive(solves, default, k, t) || Lookup(initial, k, t).Some?
  {
    LatestSolveDecides(initial, solves, default, k, t);
    forall i | 0 <= i < |solves| && solves[i].key == k
      ensures IsLatest(solves, k, i)
    {
    }
  }

  /** The later item ends no earlier than the earlier one. */
  predicate OutlivesOrEnds(later: Item, earlier: Item) {
    later.expiration <= 0 || 0 < earlier.expiration <= later.expiration
  }

  /** No earlier pass of the key, and no entry the cache started with, would have outlasted this one. */
  ghost predicate NothingOutlasts(initial: map<Key, Item>, solves: seq<Solve>, default: int64, k: Key, l: nat)
    requires l < |solves|
  {
    && (forall i :: 0 <= i < l && solves[i].key == k ==>
          OutlivesOrEnds(ItemOf(solves[l], default), ItemOf(solves[i], default)))
    && (k in initial ==> OutlivesOrEnds(ItemOf(solves[l], default), initial[k]))
  }

  /** Some pass for the key, made or reloaded, is alive. */
  ghost predicate SomePassIsLive(initial: map<Key, Item>, solves: seq<Solve>, default: int64, k: Key, t: int) {
    AnyIsLive(solves, default, k, t) || Lookup(initial, k, t).Some?
  }

  /**
   Keyed by address, a pass lasts for its own lifetime exactly when no later pass of the same
   address ends before it: the cache lets the address through just as long as any of its
   passes, made or reloaded, is alive, if and only if none would have outlasted the latest.
   */
  lemma PassesLastExactly(initial: map<Key, Item>, solves: seq<Solve>, default: int64, k: Key, l: nat)
    requires IsLatest(solves, k, l)
    ensures (forall t :: SomePassIsLive(initial, solves, default, k, t) <==>
                         Lookup(Replay(initial, solves, default), k, t).Some?)
       <==> NothingOutlasts(initial, solves, default, k, l)
  {
    hide Replay;
    forall t ensures Lookup(Replay(initial, solves, default), k, t).Some? <==> Live(solves[l], default, t) {
      LatestSolveDecides(initial, solves, default, k, t);
      assert forall i: nat :: IsLatest(solves, k, i) ==> i == l;
      assert solves[l].key == k;
    }
    var end: int := ItemOf(solves[l], default).expiration;
    if NothingOutlasts(initial, solves, default, k, l) {
      forall t ensures SomePassIsLive(initial, solves, default, k, t) <==> Live(solves[l], default, t) {
        if i :| 0 <= i < |solves| && solves[i].key == k && Live(solves[i], default, t) {
          assert i <= l;
        }
        assert Live(solves[l], default, t) ==> AnyIsLive(solves, default, k, t);
      }
    } else {
      assert !Live(solves[l], default, end + 1);
      if i :| && 0 <= i < l && solves[i].key == k
              && !OutlivesOrEnds(ItemOf(solves[l], default), ItemOf(solves[i], default)) {
        assert Live(solves[i], default, end + 1);
      }
      assert SomePassIsLive(initial, solves, default, k, end + 1);
    }
  }

  // --------------------------------------------------------------------------
  // Lifetimes
  // --------------------------------------------------------------------------

  /** `time.Duration(Window) * time.Second` */
  function WindowDuration(window: int64): int64 {
    Wrap64(window * SECOND)
  }

  /** Go's division truncates toward zero. */
  function TruncDiv(a: int, b: int): int
    requires b > 0
  {
    if a >= 0 then a / b else -(-a / b)
  }

  /** As many whole parts as fit, whatever the sign. */
  lemma TruncatesTowardZero(a: int, b: int)
    requires b > 0
    ensures a >= 0 ==> TruncDiv(a, b) * b <= a < TruncDiv(a, b) * b + b
    ensures a <= 0 ==> TruncDiv(a, b) * b >= a > TruncDiv(a, b) * b - b
  {
    var m := if a >= 0 then a else -a;
    assert m == m / b * b + m % b;
    if a < 0 {
      assert TruncDiv(a, b) * b == -(m / b * b);
    }
  }

  /** The Max-Age, in seconds, of the cookie that goes with a solve. */
  function MaxAge(exp: int64, window: int64): int {
    TruncDiv(if exp == DEFAULT_EXPIRATION then WindowDuration(window) else exp, SECOND)
  }

  /** Alive up to `end`, and not a nanosecond longer. */
  ghost predicate LivesUntil(solve: Solve, default: int64, end: int) {
    forall t :: Live(solve, default, t) <==> t <= end
  }

  /** The cookie alone asks for the configured window exactly when the window fits a duration. */
  lemma CookieKeepsWindow(window: int64)
    requires window > 0
    ensures MaxAge(DEFAULT_EXPIRATION, window) == window <==> window <= INT64_MAX / SECOND
    ensures MaxAge(HOUR, window) * SECOND == HOUR
  {
    if window <= INT64_MAX / SECOND {
      assert window * SECOND <= INT64_MAX;
    } else {
      assert window * SECOND > INT64_MAX;
      assert WindowDuration(window) < window * SECOND;
    }
  }

  /**
   For every window that is accepted and every time of the pass, cookie and server both keep
   the window exactly when it ends at a time that fits 64 bits of nanoseconds.
   */
  lemma WindowKeptExactly(key: Key, at: int64, window: int64)
    requires at >= 0 && window > 0
    ensures var solve := Solve(key, at, DEFAULT_EXPIRATION);
            && MaxAge(DEFAULT_EXPIRATION, window) == window
            && LivesUntil(solve, WindowDuration(window), at + window * SECOND)
            <==> at + window * SECOND <= INT64_MAX
  {
    var solve := Solve(key, at, DEFAULT_EXPIRATION);
    CookieKeepsWindow(window);
    var end, default := at + window * SECOND, WindowDuration(window);
    if end > INT64_MAX {
      var e: int := ItemOf(solve, default).expiration;
      WrappedIsEarlier(at, window * SECOND);
      var t := if e <= 0 then end + 1 else e + 1;
      assert Live(solve, default, t) != (t <= end);
    }
  }

  /** Wrapping twice lands on a number that is not the sum, if the sum does not fit. */
  lemma WrappedIsEarlier(at: int64, d: nat)
    requires at >= 0 && at + d > INT64_MAX
    ensures Wrap64(at + Wrap64(d)) < at + d
  {
  }

  /**
   Cookie and cache entry run out together, at the second the cookie was given, exactly when
   the duration is a positive number of whole seconds that ends at a time that fits.
   */
  lemma CookieMatchesServer(solve: Solve, window: int64)
    requires 0 <= solve.at <= INT64_MAX
    ensures var d := if solve.exp == DEFAULT_EXPIRATION then WindowDuration(window) else solve.exp;
            LivesUntil(solve, WindowDuration(window), solve.at + MaxAge(solve.exp, window) * SECOND)
            <==> d > 0 && d % SECOND == 0 && solve.at + d <= INT64_MAX
  {
    var default := WindowDuration(window);
    var d := if solve.exp == DEFAULT_EXPIRATION then default else solve.exp;
    var end := solve.at + MaxAge(solve.exp, window) * SECOND;
    if !(d > 0 && d % SECOND == 0 && solve.at + d <= INT64_MAX) {
      assert ItemOf(solve, default).expiration <= 0 || ItemOf(solve, default).expiration > end;
      assert Live(solve, default, end + 1);
    }
  }

  /** One second beyond what fits a duration: the cookie is void at once, the server never forgets. */
  lemma LargestWindowOverflows(at: int, t: int)
    ensures MaxAge(DEFAULT_EXPIRATION, INT64_MAX / SECOND + 1) < 0
    ensures Live(Solve([], at, DEFAULT_EXPIRATION), WindowDuration(INT64_MAX / SECOND + 1), t)
  {
  }

  /** A window of 250 years, at a clock of the year 2023: a correct cookie, and an entry for ever. */
  lemma LongWindowNeverEnds(key: Key, t: int)
    ensures var window: int64 := 8_000_000_000;
            && MaxAge(DEFAULT_EXPIRATION, window) == window
            && Live(Solve(key, 1_700_000_000 * SECOND, DEFAULT_EXPIRATION), WindowDuration(window), t)
  {
  }

  // --------------------------------------------------------------------------
  // The two request paths
  // --------------------------------------------------------------------------

  datatype CaptchaResponse = CaptchaResponse(success: bool, hostname: string, challengeTime: Option<int>)

  /** The exchange with the provider: it may fail, and its body may not decode. */
  datatype Siteverified =
    | NoRequest
    | NoAnswer
    | Answer(statusCode: int, body: Option<CaptchaResponse>)

  datatype Cookie = Cookie(value: Key, maxAge: int)

  const FOUND := 302
  const BAD_REQUEST := 400
  const FORBIDDEN := 403
  const INTERNAL_ERROR := 500

  const TURNSTILE_KEY := "cf-turnstile"

  /** The fields of a form; a missing field reads as the empty string. */
  function FormValue(form: map<string, string>, name: string): string {
    if name in form then form[name] else ""
  }

  /** What makes an answer good; the turnstile provider also binds it to the host and to the hour. */
  predicate Accepted(r: CaptchaResponse, key: string, expectedHostname: string, usesTestKeys: bool, now: int) {
    && r.success
    && (key == TURNSTILE_KEY ==>
          && (r.hostname == expectedHostname || (usesTestKeys && r.hostname == TEST_HOSTNAME))
          && r.challengeTime.Some? && now <= r.challengeTime.value + MAX_CHALLENGE_AGE)
  }

  lemma AcceptedExactly(r: CaptchaResponse, key: string, host: string, usesTestKeys: bool, t: int)
    ensures Accepted(r, key, host, usesTestKeys, t) <==>
            && r.success
            && (key == "cf-turnstile" ==>
                  && (r.hostname == host || (usesTestKeys && r.hostname == "example.com"))
                  && r.challengeTime.Some? && t <= r.challengeTime.value + 300_000_000_000)
  {
  }

  /**
   An answer of turnstile is good for one host only (unless the middleware runs with the test
   keys and the answer names the test host), and for five minutes only.
   */
  lemma AcceptedIsBound(r: CaptchaResponse, host: string, usesTestKeys: bool, t: int)
    requires Accepted(r, "cf-turnstile", host, usesTestKeys, t)
    ensures r.success && (r.hostname == host || (usesTestKeys && r.hostname == "example.com"))
    ensures forall other, now ::
              other != host && !usesTestKeys ==> !Accepted(r, "cf-turnstile", other, usesTestKeys, now)
    ensures r.challengeTime.Some? && t <= r.challengeTime.value + 300_000_000_000
    ensures forall now :: Accepted(r, "cf-turnstile", host, usesTestKeys, now) <==>
                            now <= r.challengeTime.value + 300_000_000_000
  {
  }

  /** Random identifiers, drawn ahead: each is new, and drawing one may fail. */
  class TokenSource {
    var supply: seq<Option<Key>>
    ghost var issued: set<Key>

    ghost predicate Valid()
      reads this
    {
      && (forall i :: 0 <= i < |supply| && supply[i].Some? ==> supply[i].value !in issued)
      && (forall i, j :: 0 <= i < j < |supply| && supply[i].Some? ==> supply[i] != supply[j])
    }

    /** `issued` are the tokens that were drawn before the process started. */
    constructor (supply: seq<Option<Key>>, ghost issued: set<Key>)
      requires forall i :: 0 <= i < |supply| && supply[i].Some? ==> supply[i].value !in issued
      requires forall i, j :: 0 <= i < j < |supply| && supply[i].Some? ==> supply[i] != supply[j]
      ensures Valid() && this.supply == supply && this.issued == issued
    {
      this.supply := supply;
      this.issued := issued;
    }

    /** The next `n` draws succeed. */
    ghost predicate Ready(n: nat)
      reads this
    {
      n <= |supply| && forall i :: 0 <= i < n ==> supply[i].Some?
    }

    method RandomUUID() returns (token: Option<Key>)
      requires Valid()
      modifies this
      ensures Valid()
      ensures old(Ready(1)) ==> token.Some?
      ensures old(Ready(2)) ==> Ready(1)
      ensures supply == if old(supply) == [] then [] else old(supply)[1..]
      ensures token.None? ==> issued == old(issued)
      ensures token.Some? ==> token.value !in old(issued) && issued == old(issued) + {token.value}
    {
      if supply == [] {
        return None;
      }
      token := supply[0];
      supply := supply[1..];
      if token.Some? {
        issued := issued + {token.value};
      }
    }
  }

  class CaptchaProtect {
    const window: int64
    const sessionMode: bool
    const usesTestKeys: bool
    const verifiedCache: Cache
    const counters: ChangeCounters
    const breaker: Breaker
    const tokens: TokenSource
    const clock: Clock
    ghost const initial: map<Key, Item>
    ghost var solves: seq<Solve>

    ghost predicate Valid()
      reads this, verifiedCache, breaker, tokens, clock
    {
      && window > 0 && verifiedCache.defaultExpiration == WindowDuration(window)
      && breaker.Valid() && tokens.Valid()
      && Agrees(verifiedCache.items, Replay(initial, solves, WindowDuration(window)), clock.time)
      && (sessionMode ==>
            Reloaded(initial, tokens.issued) && FromTokens(solves, tokens.issued) && FreshKeys(initial, solves))
    }

    /** No time passes, and nobody else reaches the breaker. */
    ghost predicate Quiet()
      reads breaker, clock
    {
      clock.Still() && breaker.schedule == []
    }

    /** `items` is what loading the saved state has put into the cache. */
    constructor (window: int64, sessionMode: bool, usesTestKeys: bool, items: map<Key, Item>,
                 counters: ChangeCounters, breaker: Breaker, tokens: TokenSource, clock: Clock)
      requires window > 0 && breaker.Valid() && tokens.Valid()
      requires sessionMode ==> Reloaded(items, tokens.issued)
      ensures Valid() && fresh(verifiedCache) && solves == [] && initial == items
      ensures this.window == window && this.sessionMode == sessionMode && this.usesTestKeys == usesTestKeys
      ensures this.counters == counters && this.breaker == breaker && this.tokens == tokens && this.clock == clock
    {
      this.window := window;
      this.sessionMode := sessionMode;
      this.usesTestKeys := usesTestKeys;
      this.verifiedCache := new Cache(WindowDuration(window), items);
      this.counters := counters;
      this.breaker := breaker;
      this.tokens := tokens;
      this.clock := clock;
      this.initial := items;
      this.solves := [];
    }

    /** How many random identifiers a request draws: one for turnstile, one for a session. */
    function Draws(key: string): nat {
      (if key == TURNSTILE_KEY then 1 else 0) + (if sessionMode then 1 else 0)
    }

    method Janitor()
      requires Valid()
      modifies verifiedCache, clock
      ensures Valid() && old(clock.time) <= clock.time
      ensures forall k :: k in verifiedCache.items <==>
                && k in old(verifiedCache.items)
                && !(0 < old(verifiedCache.items)[k].expiration < clock.time)
      ensures forall k :: k in verifiedCache.items ==> verifiedCache.items[k] == old(verifiedCache.items)[k]
    {
      verifiedCache.DeleteExpired(clock);
    }

    /**
     The cache part of `shouldApply`. In session mode a request is let through exactly when its
     cookie carries the token of a solve that is still alive, or of a reloaded session that is;
     without a cookie only if the cache started with an entry for the empty key.
     */
    method IsVerified(ip: Key, cookie: Option<Key>) returns (verified: bool)
      requires Valid()
      modifies clock
      ensures Valid() && old(clock.time) <= clock.time
      ensures old(clock.Still()) ==> clock.Still() && clock.time == old(clock.time)
      ensures var key := if !sessionMode then ip else if cookie.Some? then SESSION_PREFIX + cookie.value else [];
              var items := verifiedCache.items;
              verified <==> key in items && !(0 < items[key].expiration < clock.time)
      ensures sessionMode && cookie.Some? ==>
                var key := SESSION_PREFIX + cookie.value;
                (verified <==> AnyIsLive(solves, WindowDuration(window), key, clock.time)
                               || Lookup(initial, key, clock.time).Some?)
      ensures sessionMode && cookie.None? ==> (verified <==> Lookup(initial, [], clock.time).Some?)
      ensures !sessionMode ==>
                (verified <==> LatestIsLive(solves, WindowDuration(window), ip, clock.time)
                               || (!Solved(solves, ip) && Lookup(initial, ip, clock.time).Some?))
    {
      var key := ip;
      if sessionMode {
        key := [];
        if cookie.Some? {
          key := SESSION_PREFIX + cookie.value;
        }
      }
      var found := verifiedCache.Get(clock, key);
      verified := found.Some?;
      ghost var default := WindowDuration(window);
      AgreeingAnswers(verifiedCache.items, Replay(initial, solves, default), key, old(clock.time), clock.time);
      if sessionMode {
        FreshSolvesLast(initial, solves, default, key, clock.time);
        assert cookie.None? ==> !AnyIsLive(solves, default, [], clock.time);
      } else {
        LatestSolveDecides(initial, solves, default, key, clock.time);
      }
    }

    /**
     `verifyChallengePage`. `form` holds the fields of the request, `expectedHostname` the host it
     came for, and `exchange` what the provider will say if it is asked.
     */
    method VerifyChallengePage(ip: Key, form: map<string, string>, expectedHostname: string, exchange: Siteverified)
      returns (status: int, cookie: Option<Cookie>)
      requires Valid()
      modifies this`solves, counters`stateDirty, verifiedCache, breaker, tokens, clock
      ensures Valid() && old(clock.time) <= clock.time
      ensures status == FOUND || status == BAD_REQUEST || status == FORBIDDEN || status == INTERNAL_ERROR
      ensures status == BAD_REQUEST <==> FormValue(form, old(breaker.Active()).key + "-response") == ""
      ensures status == BAD_REQUEST <==>
                var name := old(breaker.Active()).key + "-response"; name !in form || form[name] == ""
      ensures old(tokens.Ready(Draws(breaker.Active().key))) ==>
                (status == INTERNAL_ERROR <==>
                   && FormValue(form, old(breaker.Active()).key + "-response") != ""
                   && old(breaker.Active()).validate != INTERNAL && (!exchange.Answer? || exchange.body.None?))
      ensures status == FOUND && old(breaker.Active()).validate != "internal" ==>
                exchange.Answer? && exchange.body.Some? && exchange.body.value.success
      ensures status == FOUND && old(breaker.Active()).validate != "internal"
              && old(breaker.Active()).key == "cf-turnstile" ==>
                var answer := exchange.body.value;
                && (answer.hostname == expectedHostname || (usesTestKeys && answer.hostname == "example.com"))
                && answer.challengeTime.Some?
                && old(clock.time) <= answer.challengeTime.value + 300_000_000_000
      ensures status == FORBIDDEN ==>
                && exchange.Answer? && exchange.body.Some?
                && var answer := exchange.body.value;
                   !(&& answer.success
                     && (old(breaker.Active()).key == "cf-turnstile" ==>
                           && (answer.hostname == expectedHostname
                               || (usesTestKeys && answer.hostname == "example.com"))
                           && answer.challengeTime.Some?
                           && clock.time <= answer.challengeTime.value + 300_000_000_000))
      ensures (|| status == FOUND || status == FORBIDDEN
               || (old(tokens.Ready(Draws(breaker.Active().key))) && status == INTERNAL_ERROR && exchange.Answer?))
              && old(breaker.Active()).validate != INTERNAL ==>
                |old(breaker.events)| < |breaker.events| && EndsWith(breaker.events, Siteverify(exchange.statusCode))
      ensures status == FORBIDDEN ==> old(breaker.Active()).validate != INTERNAL
      ensures status != FOUND ==>
                && solves == old(solves) && verifiedCache.items == old(verifiedCache.items)
                && cookie.None? && counters.stateDirty == old(counters.stateDirty)
      ensures status == FOUND ==>
                && |solves| == |old(solves)| + 1 && solves[..|old(solves)|] == old(solves)
                && counters.stateDirty == Marked(old(counters.stateDirty), counters.hasStateFile)
                && IsNewSolve(solves[|old(solves)|], ip, cookie, old(tokens.issued))
                && old(clock.time) <= solves[|old(solves)|].at <= clock.time
      ensures status == FOUND ==>
                solves[|old(solves)|].exp ==
                if old(breaker.Active()).validate == INTERNAL && breaker.circuitState == Open then HOUR
                else DEFAULT_EXPIRATION
      ensures status == FOUND && solves[|old(solves)|].exp == HOUR ==> breaker.hasFallbackProvider
      ensures status == FOUND && old(breaker.Active()).validate == INTERNAL ==>
                breaker.events == old(breaker.events) + old(breaker.Next())
      ensures old(clock.Still()) ==> clock.Still() && clock.time == old(clock.time)
      ensures old(Quiet()) ==> Quiet() && QuietEvents(old(breaker.events), exchange)
    {
      hide Agrees, Replay, FreshKeys, FromTokens, Reloaded, IsSessionKey, Wrap64, Accepted, After;
      cookie := None;
      var active := breaker.GetActiveCaptchaConfig();
      if FormValue(form, active.key + "-response") == "" {
        return BAD_REQUEST, None;
      }
      var exp: int64 := DEFAULT_EXPIRATION;
      if active.validate == INTERNAL {
        // the second look at the circuit; it may have closed since the first
        breaker.OthersRun();
        breaker.InternalStaysClosed();
        if breaker.circuitState == Open {
          exp := HOUR;
        }
      } else {
        var success := AskProvider(active.key, expectedHostname, exchange);
        if success.None? {
          return INTERNAL_ERROR, None;
        }
        AcceptedExactly(exchange.body.value, active.key, expectedHostname, usesTestKeys, clock.time);
        if !success.value {
          return FORBIDDEN, None;
        }
      }
      status, cookie := GrantPass(ip, exp);
    }

    /** Undisturbed, a request adds at most the status of its own siteverify answer to the breaker. */
    ghost predicate QuietEvents(events: seq<Event>, exchange: Siteverified)
      reads breaker
    {
      || breaker.events == events
      || (exchange.Answer? && breaker.events == events + [Siteverify(exchange.statusCode)])
    }

    /** Only turnstile is sent a random identifier of the request. */
    method DrawIdempotencyKey(key: string) returns (ok: bool)
      requires Valid()
      modifies tokens
      ensures Valid() && old(tokens.issued) <= tokens.issued
      ensures old(tokens.Ready(Draws(key))) ==> ok && tokens.Ready(Draws(""))
    {
      hide Agrees, Replay, FreshKeys, FromTokens, Reloaded, IsSessionKey, Wrap64, Breaker.Valid;
      if key != TURNSTILE_KEY {
        return true;
      }
      ghost var issued := tokens.issued;
      var idempotencyKey := tokens.RandomUUID();
      if sessionMode {
        TokensGrow(initial, solves, issued, tokens.issued);
      }
      ok := idempotencyKey.Some?;
    }

    /** The exchange with an outside provider; nothing comes back when it breaks. */
    method AskProvider(key: string, expectedHostname: string, exchange: Siteverified) returns (success: Option<bool>)
      requires Valid() && breaker.primary.validate != INTERNAL
      modifies breaker, tokens, clock
      ensures Valid() && old(clock.time) <= clock.time && old(tokens.issued) <= tokens.issued
      ensures old(tokens.Ready(Draws(key))) ==>
                && tokens.Ready(Draws(""))
                && (success.None? <==> !exchange.Answer? || exchange.body.None?)
      ensures old(breaker.events) <= breaker.events
      ensures !exchange.Answer? ==> breaker.events == old(breaker.events)
      ensures exchange.Answer? && (success.Some? || old(tokens.Ready(Draws(key)))) ==>
                |old(breaker.events)| < |breaker.events| && EndsWith(breaker.events, Siteverify(exchange.statusCode))
      ensures success.Some? ==>
                && exchange.Answer? && exchange.body.Some?
                && success.value == Accepted(exchange.body.value, key, expectedHostname, usesTestKeys, clock.time)
      ensures old(clock.Still()) ==> clock.Still() && clock.time == old(clock.time)
      ensures old(Quiet()) ==> Quiet() && QuietEvents(old(breaker.events), exchange)
    {
      hide Agrees, Replay, FreshKeys, FromTokens, Reloaded, IsSessionKey, Wrap64, Accepted, Breaker.Valid;
      var drawn := DrawIdempotencyKey(key);
      if !drawn {
        return None;
      }
      if exchange.NoRequest? || exchange.NoAnswer? {
        return None;
      }
      breaker.OthersRun();
      breaker.NoteSiteverify(exchange.statusCode);
      if exchange.body.None? {
        return None;
      }
      var accepted := CheckAnswer(exchange.body.value, key, expectedHostname);
      AgreesLater(verifiedCache.items, Replay(initial, solves, WindowDuration(window)), old(clock.time), clock.time);
      success := Some(accepted);
    }

    /** The checks on a decoded answer; only turnstile's are read against the clock. */
    method CheckAnswer(r: CaptchaResponse, key: string, expectedHostname: string) returns (success: bool)
      modifies clock
      ensures old(clock.time) <= clock.time
      ensures old(clock.Still()) ==> clock.Still() && clock.time == old(clock.time)
      ensures success <==> Accepted(r, key, expectedHostname, usesTestKeys, clock.time)
      ensures success <==>
                && r.success
                && (key == "cf-turnstile" ==>
                      && (r.hostname == expectedHostname || (usesTestKeys && r.hostname == "example.com"))
                      && r.challengeTime.Some? && clock.time <= r.challengeTime.value + 300_000_000_000)
    {
      success := r.success;
      if success && key == TURNSTILE_KEY {
        var skipHostnameValidation := usesTestKeys && r.hostname == TEST_HOSTNAME;
        if !skipHostnameValidation && r.hostname != expectedHostname {
          success := false;
        } else if r.challengeTime.None? {
          success := false;
        } else {
          var now := clock.Now();
          var age := now - r.challengeTime.value;
          if age < 0 {
            age := 0;
          }
          if age > MAX_CHALLENGE_AGE {
            success := false;
          }
        }
      }
    }

    /** A solve for the address, or for a token nobody had before, with the cookie that fits it. */
    ghost predicate IsNewSolve(solve: Solve, ip: Key, cookie: Option<Cookie>, issued: set<Key>) {
      if sessionMode then
        && cookie.Some? && cookie.value.value !in issued && solve.key == SESSION_PREFIX + cookie.value.value
        && cookie.value.maxAge == MaxAge(solve.exp, window)
      else
        cookie.None? && solve.key == ip
    }

    /** The end of a passed challenge: a token in session mode, the cache entry, the mark. */
    method GrantPass(ip: Key, exp: int64) returns (status: int, cookie: Option<Cookie>)
      requires Valid() && (exp == DEFAULT_EXPIRATION || exp == HOUR)
      modifies this`solves, counters`stateDirty, verifiedCache, tokens, clock
      ensures Valid() && old(clock.time) <= clock.time
      ensures old(clock.Still()) ==> clock.Still() && clock.time == old(clock.time)
      ensures status == FOUND || status == INTERNAL_ERROR
      ensures old(tokens.Ready(Draws(""))) ==> status == FOUND
      ensures status != FOUND ==>
                && solves == old(solves) && verifiedCache.items == old(verifiedCache.items)
                && cookie.None? && counters.stateDirty == old(counters.stateDirty)
      ensures status == FOUND ==>
                && |solves| == |old(solves)| + 1
                && solves == old(solves) + [Solve(solves[|old(solves)|].key, clock.time, exp)]
                && counters.stateDirty == Marked(old(counters.stateDirty), counters.hasStateFile)
                && IsNewSolve(solves[|old(solves)|], ip, cookie, old(tokens.issued))
      ensures status == FOUND && !sessionMode ==> cookie.None? && solves[|old(solves)|].key == ip
      ensures status == FOUND && sessionMode ==>
                && cookie.Some? && cookie.value.value !in old(tokens.issued)
                && solves[|old(solves)|].key == SESSION_PREFIX + cookie.value.value
                && (exp == HOUR ==> cookie.value.maxAge == 3600)
                && (exp == DEFAULT_EXPIRATION && window <= 9_223_372_036 ==> cookie.value.maxAge == window)
      ensures status == FOUND ==>
                var key := solves[|old(solves)|].key;
                key in verifiedCache.items && verifiedCache.items[key].stored == BoolValue(true)
    {
      hide Agrees, Replay, FreshKeys, FromTokens, Reloaded, IsSessionKey, Breaker.Valid, Wrap64;
      CookieKeepsWindow(window);
      var key := ip;
      cookie := None;
      if sessionMode {
        var token := tokens.RandomUUID();
        if token.None? {
          return INTERNAL_ERROR, None;
        }
        key := SESSION_PREFIX + token.value;
        var duration := WindowDuration(window);
        if exp != DEFAULT_EXPIRATION {
          duration := exp;
        }
        cookie := Some(Cookie(token.value, TruncDiv(duration, SECOND)));
      }
      ghost var items := verifiedCache.items;
      verifiedCache.Set(clock, key, BoolValue(true), exp);
      ghost var solve := Solve(key, clock.time, exp);
      AgreesSnoc(items, initial, solves, solve, WindowDuration(window), old(clock.time), clock.time);
      if sessionMode {
        FreshTokenIsFreshKey(initial, solves, old(tokens.issued), cookie.value.value, solve);
      }
      solves := solves + [solve];
      counters.MarkStateDirty();
      status := FOUND;
    }
  }
}
