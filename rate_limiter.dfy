/**
 * The request rate limiter of src/lib/rate-limiter.ts.
 *
 * `checkRateLimit` is a fixed-window counter kept in a Redis-like store: the
 * key names the caller's scope key and the window index `floor(now / windowMs)`,
 * the first hit of a window sets the key's expiry, and any store error lets the
 * request through.  The module-level singletons of the source (the limiter pair
 * and the store client) are the fields of `RateLimitModule`; the store is the
 * class `CounterStore`.  Time is a natural number of milliseconds.
 */
module RateLimiter {
  import opened Wrappers
  import opened JsString

  // ---------------------------------------------------------------------------
  // The counter store
  // ---------------------------------------------------------------------------

  /** One stored counter and its time to live in seconds (`None`: no expiry set). */
  datatype Entry = Entry(count: nat, ttlSeconds: Option<nat>)

  /** The value INCR leaves under `key`: a missing key counts as 0. */
  function CountOf(entries: map<string, Entry>, key: string): nat {
    if key in entries then entries[key].count else 0
  }

  /** The store after INCR: the count goes up by one, the expiry is kept (a new key has none). */
  function Incremented(entries: map<string, Entry>, key: string): (r: map<string, Entry>)
    ensures key in r && r[key].count == CountOf(entries, key) + 1
    ensures r[key].ttlSeconds == if key in entries then entries[key].ttlSeconds else None
    ensures r.Keys == entries.Keys + {key}
    ensures forall k :: k in entries && k != key ==> r[k] == entries[k]
  {
    entries[key := Entry(CountOf(entries, key) + 1, if key in entries then entries[key].ttlSeconds else None)]
  }

  /** The store after EXPIRE: a timeout of 0 deletes the key, a positive one is recorded. */
  function Expired(entries: map<string, Entry>, key: string, seconds: nat): (r: map<string, Entry>)
    ensures key !in entries ==> r == entries
    ensures key in entries && seconds == 0 ==> r == entries - {key}
    ensures key in entries && seconds > 0 ==> r == entries[key := Entry(entries[key].count, Some(seconds))]
  {
    if key !in entries then entries
    else if seconds == 0 then entries - {key}
    else entries[key := entries[key].(ttlSeconds := Some(seconds))]
  }

  /**
   * A Redis-like key/value store of counters.  Each command can fail on its own:
   * while `incrFails`, INCR errors; while `expireFails`, EXPIRE errors.
   */
  class CounterStore {
    var entries: map<string, Entry>
    var incrFails: bool
    var expireFails: bool

    constructor ()
      ensures entries == map[] && !incrFails && !expireFails
    {
      entries := map[];
      incrFails := false;
      expireFails := false;
    }

    /** INCR: `None` when the command fails. */
    method Incr(key: string) returns (r: Option<nat>)
      modifies this`entries
      ensures incrFails ==> r == None && entries == old(entries)
      ensures !incrFails ==> r == Some(CountOf(old(entries), key) + 1) && entries == Incremented(old(entries), key)
    {
      if incrFails {
        r := None;
      } else {
        r := Some(CountOf(entries, key) + 1);
        entries := Incremented(entries, key);
      }
    }

    /** EXPIRE: `ok` is false when the command fails. */
    method Expire(key: string, seconds: nat) returns (ok: bool)
      modifies this`entries
      ensures ok == !expireFails
      ensures entries == if expireFails then old(entries) else Expired(old(entries), key, seconds)
    {
      ok := !expireFails;
      if ok {
        entries := Expired(entries, key, seconds);
      }
    }
  }

  // ---------------------------------------------------------------------------
  // Keys, windows and the decision
  // ---------------------------------------------------------------------------

  /**
   * The text of `Math.floor(now / windowMs)` inside a template literal: the
   * decimal window index, or JavaScript's "Infinity" / "NaN" for a zero window.
   */
  function WindowLabel(now: nat, windowMs: nat): (r: string)
    ensures ':' !in r
    ensures windowMs > 0 ==> r == NatToString(now / windowMs)
  {
    if windowMs > 0 then NatToString(now / windowMs)
    else if now > 0 then "Infinity"
    else "NaN"
  }

  const CustomPrefix: string := "custom_rate_limit:"

  /** The Redis key of a `checkRateLimit` call: the prefix and the scope key, then ':' and the window label. */
  function StoreKey(key: string, now: nat, windowMs: nat): (k: string)
    ensures CustomPrefix + key <= k
  {
    CustomPrefix + key + ":" + WindowLabel(now, windowMs)
  }

  /** `Math.ceil(windowMs / 1000)`: the expiry in whole seconds. */
  function ExpirySeconds(windowMs: nat): (s: nat)
    ensures s * 1000 >= windowMs
    ensures s == 0 || (s - 1) * 1000 < windowMs
    ensures s == 0 <==> windowMs == 0
  {
    (windowMs + 999) / 1000
  }

  datatype RateLimitResult = RateLimitResult(success: bool, remaining: int)

  /** The answer for the `count`-th request of a window. */
  function Decide(count: nat, limit: int): (r: RateLimitResult)
    ensures r.success <==> count <= limit
    ensures r.remaining >= 0 && r.remaining >= limit - count
    ensures r.remaining == 0 || r.remaining == limit - count
  {
    RateLimitResult(count <= limit, if limit - count > 0 then limit - count else 0)
  }

  /** The store and the answer after one `checkRateLimit` call. */
  datatype Step = Step(entries: map<string, Entry>, result: RateLimitResult)

  /**
   * One call of `checkRateLimit(key, limit, windowMs)` at time `now`, on a store
   * holding `entries` whose INCR errors iff `incrFails` and whose EXPIRE errors
   * iff `expireFails`.  Both commands sit in one `try`: an error in either
   * answers (true, 0), and an INCR that succeeded before a failed EXPIRE stays.
   */
  function CheckStep(testMode: bool, incrFails: bool, expireFails: bool, entries: map<string, Entry>,
                     key: string, limit: int, now: nat, windowMs: nat): (s: Step)
    ensures testMode ==> s == Step(entries, RateLimitResult(true, limit))
    ensures !testMode && incrFails ==> s == Step(entries, RateLimitResult(true, 0))
    ensures !testMode && !incrFails ==>
      var sk := StoreKey(key, now, windowMs);
      var count := CountOf(entries, sk) + 1;
      && (forall k :: k != sk ==> (k in s.entries <==> k in entries))
      && (forall k :: k != sk && k in entries ==> s.entries[k] == entries[k])
      && (count > 1 ==> s.result == Decide(count, limit) && sk in s.entries && s.entries[sk] == Entry(count, entries[sk].ttlSeconds))
      && (count == 1 && expireFails ==> s.result == RateLimitResult(true, 0) && s.entries == Incremented(entries, sk))
      && (count == 1 && !expireFails ==> s.result == Decide(1, limit))
      && (count == 1 && !expireFails && windowMs > 0 ==> sk in s.entries && s.entries[sk] == Entry(1, Some(ExpirySeconds(windowMs))))
      && (count == 1 && !expireFails && windowMs == 0 ==> sk !in s.entries)
  {
    if testMode then Step(entries, RateLimitResult(true, limit))
    else if incrFails then Step(entries, RateLimitResult(true, 0))
    else
      var sk := StoreKey(key, now, windowMs);
      var incremented := Incremented(entries, sk);
      var current := incremented[sk].count;
      if current == 1 && expireFails then Step(incremented, RateLimitResult(true, 0))
      else
        var after := if current == 1 then Expired(incremented, sk, ExpirySeconds(windowMs)) else incremented;
        Step(after, Decide(current, limit))
  }

  /** Every stored counter is at least 1 and carries a positive expiry. */
  ghost predicate EveryCounterExpires(entries: map<string, Entry>) {
    forall k :: k in entries ==> entries[k].count >= 1 && entries[k].ttlSeconds.Some? && entries[k].ttlSeconds.value > 0
  }

  /**
   * From a store whose counters all expire, a call leaves a counter that never
   * expires exactly when its INCR creates the counter and the EXPIRE that
   * follows fails.
   */
  lemma CheckStepKeepsExpiry(testMode: bool, incrFails: bool, expireFails: bool, entries: map<string, Entry>,
                             key: string, limit: int, now: nat, windowMs: nat)
    requires EveryCounterExpires(entries)
    ensures EveryCounterExpires(CheckStep(testMode, incrFails, expireFails, entries, key, limit, now, windowMs).entries)
            <==> testMode || incrFails || !expireFails || StoreKey(key, now, windowMs) in entries
  {
    var sk := StoreKey(key, now, windowMs);
    var s := CheckStep(testMode, incrFails, expireFails, entries, key, limit, now, windowMs);
    if !testMode && !incrFails && expireFails && sk !in entries {
      assert sk in s.entries && s.entries[sk].ttlSeconds.None?;
    }
  }

  /**
   * A failed EXPIRE after the first INCR of a window lets the request through
   * and leaves its counter at 1 with no expiry.
   */
  lemma ExpireFailureKeepsCounter(entries: map<string, Entry>, key: string, limit: int, now: nat, windowMs: nat)
    requires StoreKey(key, now, windowMs) !in entries
    ensures var s := CheckStep(false, false, true, entries, key, limit, now, windowMs);
            && s.result == RateLimitResult(true, 0)
            && s.entries == entries[StoreKey(key, now, windowMs) := Entry(1, None)]
  {
  }

  // ---------------------------------------------------------------------------
  // Keys: same window shares a counter, different scope keys or windows never do
  // ---------------------------------------------------------------------------

  lemma {:induction false} ColonSplit(a: string, x: string, b: string, y: string)
    requires ':' !in x && ':' !in y
    requires a + ":" + x == b + ":" + y
    ensures a == b && x == y
  {
    var s := a + ":" + x;
    assert s[|a|] == ':';
    assert s[|b|] == ':';
    assert x == s[|s| - |x|..] == y;
    assert a == s[..|a|] == b;
  }

  /** Two calls share a store key only if they have the same scope key and the same window label. */
  lemma StoreKeyInjective(k1: string, now1: nat, w1: nat, k2: string, now2: nat, w2: nat)
    requires StoreKey(k1, now1, w1) == StoreKey(k2, now2, w2)
    ensures k1 == k2 && WindowLabel(now1, w1) == WindowLabel(now2, w2)
  {
    var l1, l2 := WindowLabel(now1, w1), WindowLabel(now2, w2);
    assert StoreKey(k1, now1, w1) == CustomPrefix + (k1 + ":" + l1);
    assert StoreKey(k2, now2, w2) == CustomPrefix + (k2 + ":" + l2);
    assert k1 + ":" + l1 == StoreKey(k1, now1, w1)[|CustomPrefix|..];
    ColonSplit(k1, l1, k2, l2);
  }

  /** Calls with the same key in the same window share one counter, and only those do. */
  lemma SameCounterIffSameWindow(key: string, now1: nat, now2: nat, windowMs: nat)
    requires windowMs > 0
    ensures StoreKey(key, now1, windowMs) == StoreKey(key, now2, windowMs) <==> now1 / windowMs == now2 / windowMs
  {
    if StoreKey(key, now1, windowMs) == StoreKey(key, now2, windowMs) {
      StoreKeyInjective(key, now1, windowMs, key, now2, windowMs);
      NatToStringInjective(now1 / windowMs, now2 / windowMs);
    }
  }

  // ---------------------------------------------------------------------------
  // Sequences of calls
  // ---------------------------------------------------------------------------

  datatype Call = Call(key: string, limit: int, now: nat, windowMs: nat) {
    function Key(): string { StoreKey(key, now, windowMs) }
  }

  datatype Trace = Trace(entries: map<string, Entry>, results: seq<RateLimitResult>)

  /** The store and the answers after a sequence of calls outside test mode on a store whose commands succeed. */
  function Run(entries: map<string, Entry>, calls: seq<Call>): (t: Trace)
    ensures |t.results| == |calls|
    decreases |calls|
  {
    if calls == [] then Trace(entries, [])
    else
      var prev := Run(entries, calls[..|calls| - 1]);
      var c := calls[|calls| - 1];
      var step := CheckStep(false, false, false, prev.entries, c.key, c.limit, c.now, c.windowMs);
      Trace(step.entries, prev.results + [step.result])
  }

  /** One call with a positive window, on a store whose commands succeed, adds one to its own counter. */
  lemma StepCountsOnItsKey(entries: map<string, Entry>, c: Call)
    requires c.windowMs > 0
    ensures var step := CheckStep(false, false, false, entries, c.key, c.limit, c.now, c.windowMs);
      && CountOf(step.entries, c.Key()) == CountOf(entries, c.Key()) + 1
      && step.result == Decide(CountOf(entries, c.Key()) + 1, c.limit)
  {
  }

  /**
   * Within one window (all calls on one store key, positive window), each call
   * adds one to the counter.
   */
  lemma {:induction false} CountsInOneWindow(entries: map<string, Entry>, calls: seq<Call>, sk: string)
    requires forall i :: 0 <= i < |calls| ==> calls[i].Key() == sk && calls[i].windowMs > 0
    ensures CountOf(Run(entries, calls).entries, sk) == CountOf(entries, sk) + |calls|
    decreases |calls|
  {
    if calls != [] {
      var init := calls[..|calls| - 1];
      CountsInOneWindow(entries, init, sk);
      StepCountsOnItsKey(Run(entries, init).entries, calls[|calls| - 1]);
      RunSnoc(entries, calls);
    }
  }

  /**
   * Within one window, the i-th call sees the counter it found plus i + 1.
   */
  lemma {:induction false} CallsInOneWindow(entries: map<string, Entry>, calls: seq<Call>, sk: string)
    requires forall i :: 0 <= i < |calls| ==> calls[i].Key() == sk && calls[i].windowMs > 0
    ensures forall i :: 0 <= i < |calls| ==>
      Run(entries, calls).results[i] == Decide(CountOf(entries, sk) + i + 1, calls[i].limit)
    decreases |calls|
  {
    if calls != [] {
      var init := calls[..|calls| - 1];
      CallsInOneWindow(entries, init, sk);
      CountsInOneWindow(entries, init, sk);
      var prev := Run(entries, init);
      StepCountsOnItsKey(prev.entries, calls[|calls| - 1]);
      RunSnoc(entries, calls);
      forall i | 0 <= i < |calls|
        ensures Run(entries, calls).results[i] == Decide(CountOf(entries, sk) + i + 1, calls[i].limit)
      {
        if i < |init| {
          assert calls[i] == init[i] && Run(entries, calls).results[i] == prev.results[i];
        }
      }
    }
  }

  /** The last call of a sequence acts on the store the earlier calls left. */
  lemma RunSnoc(entries: map<string, Entry>, calls: seq<Call>)
    requires calls != []
    ensures var prev := Run(entries, calls[..|calls| - 1]);
      var c := calls[|calls| - 1];
      var step := CheckStep(false, false, false, prev.entries, c.key, c.limit, c.now, c.windowMs);
      Run(entries, calls) == Trace(step.entries, prev.results + [step.result])
  {
  }

  /**
   * From a fresh key, the k-th call of a window (k = i + 1) succeeds iff k <= limit,
   * and reports max(0, limit - k) remaining.
   */
  lemma KthCallOfWindow(entries: map<string, Entry>, calls: seq<Call>, sk: string, i: nat)
    requires forall j :: 0 <= j < |calls| ==> calls[j].Key() == sk && calls[j].windowMs > 0
    requires sk !in entries
    requires i < |calls|
    ensures Run(entries, calls).results[i].success <==> i + 1 <= calls[i].limit
    ensures Run(entries, calls).results[i].remaining == if calls[i].limit - (i + 1) > 0 then calls[i].limit - (i + 1) else 0
  {
    CallsInOneWindow(entries, calls, sk);
  }

  /** Calls on other store keys leave a key's entry as it was. */
  lemma {:induction false} RunLeavesOtherKeys(entries: map<string, Entry>, calls: seq<Call>, sk: string)
    requires forall i :: 0 <= i < |calls| ==> calls[i].Key() != sk
    ensures sk in Run(entries, calls).entries <==> sk in entries
    ensures sk in entries ==> Run(entries, calls).entries[sk] == entries[sk]
    decreases |calls|
  {
    if calls != [] {
      RunLeavesOtherKeys(entries, calls[..|calls| - 1], sk);
    }
  }

  /**
   * The counter resets with the window: a call whose window index lies beyond
   * the windows of all earlier calls (same key, same window length) is counted
   * as the first of its window.
   */
  lemma {:induction false} NewWindowStartsAtOne(entries: map<string, Entry>, calls: seq<Call>, c: Call)
    requires c.windowMs > 0 && c.Key() !in entries
    requires forall i :: 0 <= i < |calls| ==>
      calls[i].key == c.key && calls[i].windowMs == c.windowMs && calls[i].now / c.windowMs < c.now / c.windowMs
    ensures Run(entries, calls + [c]).results[|calls|] == Decide(1, c.limit)
  {
    forall i | 0 <= i < |calls| ensures calls[i].Key() != c.Key() {
      SameCounterIffSameWindow(c.key, calls[i].now, c.now, c.windowMs);
    }
    RunLeavesOtherKeys(entries, calls, c.Key());
    assert (calls + [c])[..|calls|] == calls;
  }

  /**
   * Five attempts per fifteen minutes: six attempts in one window leave
   * 4, 3, 2, 1, 0 attempts and the sixth is refused.
   */
  lemma {:induction false} SixAttemptsInOneWindow(calls: seq<Call>)
    requires |calls| == 6
    requires forall i :: 0 <= i < 6 ==> calls[i].limit == 5 && calls[i].windowMs == FifteenMinutesMs
    requires forall i :: 0 <= i < 6 ==> calls[i].Key() == calls[0].Key()
    ensures Run(map[], calls).results == [RateLimitResult(true, 4), RateLimitResult(true, 3), RateLimitResult(true, 2),
                                          RateLimitResult(true, 1), RateLimitResult(true, 0), RateLimitResult(false, 0)]
  {
    CallsInOneWindow(map[], calls, calls[0].Key());
  }

  // ---------------------------------------------------------------------------
  // The two preconfigured limiters and the request adapter
  // ---------------------------------------------------------------------------

  const FifteenMinutesMs: nat := 15 * 60 * 1000

  /** The settings handed to the rate-limit library for one limiter. */
  datatype Policy = Policy(windowMs: nat, max: nat, message: string, prefix: string)

  const AuthPolicy: Policy :=
    Policy(FifteenMinutesMs, 5, "Too many authentication attempts, please try again later", "auth_rate_limit:")
  const ApiPolicy: Policy :=
    Policy(FifteenMinutesMs, 100, "Too many requests, please try again later", "api_rate_limit:")

  /** A limiter middleware: the test no-op that only calls `next`, or a library limiter. */
  datatype Handler = NoOp | Limiter(policy: Policy)

  datatype RateLimiters = RateLimiters(auth: Handler, api: Handler, isTest: bool)

  /** `createRateLimiters`: no-ops in test mode, the auth and api policies otherwise. */
  function CreateRateLimiters(testMode: bool): (r: RateLimiters)
    ensures r.isTest == testMode
    ensures testMode ==> r.auth == NoOp && r.api == NoOp
    ensures !testMode ==> r.auth.Limiter? && r.api.Limiter? && r.auth.policy.max < r.api.policy.max
  {
    if testMode then RateLimiters(NoOp, NoOp, true)
    else RateLimiters(Limiter(AuthPolicy), Limiter(ApiPolicy), false)
  }

  /** Request headers by lower-case name. */
  type Headers = map<string, string>

  /**
   * The client address handed to the limiter: the first comma-separated part of
   * `x-forwarded-for` when that header is present (even if that part is empty),
   * else `x-real-ip`, else the loopback address.
   */
  function ClientIp(headers: Headers): (ip: string)
    ensures "x-forwarded-for" in headers ==>
      var xff := headers["x-forwarded-for"];
      ip <= xff && ',' !in ip && (ip == xff || xff[|ip|] == ',')
    ensures "x-forwarded-for" !in headers && "x-real-ip" in headers ==> ip == headers["x-real-ip"]
    ensures "x-forwarded-for" !in headers && "x-real-ip" !in headers ==> ip == "127.0.0.1"
  {
    if "x-forwarded-for" in headers then FirstSegment(headers["x-forwarded-for"])
    else if "x-real-ip" in headers then headers["x-real-ip"]
    else "127.0.0.1"
  }

  /**
   * What `applyRateLimit` does with a request: in test mode it answers `null`
   * at once; otherwise it hands the limiter a request whose address is `ip`.
   */
  datatype Applied = Skipped | Delegated(handler: Handler, ip: string)

  function ApplyRateLimit(testMode: bool, headers: Headers, handler: Handler): (r: Applied)
    ensures r.Skipped? <==> testMode
    ensures !testMode ==> r.handler == handler && r.ip == ClientIp(headers)
  {
    if testMode then Skipped else Delegated(handler, ClientIp(headers))
  }

  // ---------------------------------------------------------------------------
  // The module state
  // ---------------------------------------------------------------------------

  /** The module's singletons: the environment flag, the store client and the memoised limiters. */
  class RateLimitModule {
    const testMode: bool
    const store: CounterStore
    var limiters: Option<RateLimiters>

    /** Once created, the limiters are the ones the environment calls for. */
    ghost predicate Valid()
      reads this
    {
      limiters.Some? ==> limiters.value == CreateRateLimiters(testMode)
    }

    constructor (testMode: bool, store: CounterStore)
      ensures Valid()
      ensures this.testMode == testMode && this.store == store && limiters == None
    {
      this.testMode := testMode;
      this.store := store;
      limiters := None;
    }

    /** `getRateLimiters`: creates the limiters on first use and returns the same ones afterwards. */
    method GetRateLimiters() returns (l: RateLimiters)
      requires Valid()
      modifies this`limiters
      ensures Valid()
      ensures limiters == Some(l) && l == CreateRateLimiters(testMode)
      ensures old(limiters).Some? ==> l == old(limiters).value
    {
      if limiters.None? {
        limiters := Some(CreateRateLimiters(testMode));
      }
      l := limiters.value;
    }

    /** `checkAuthRateLimit`. */
    method CheckAuthRateLimit(headers: Headers) returns (r: Applied)
      requires Valid()
      modifies this`limiters
      ensures Valid() && limiters == Some(CreateRateLimiters(testMode))
      ensures r == ApplyRateLimit(testMode, headers, CreateRateLimiters(testMode).auth)
    {
      var l := GetRateLimiters();
      r := ApplyRateLimit(testMode, headers, l.auth);
    }

    /** `checkApiRateLimit`. */
    method CheckApiRateLimit(headers: Headers) returns (r: Applied)
      requires Valid()
      modifies this`limiters
      ensures Valid() && limiters == Some(CreateRateLimiters(testMode))
      ensures r == ApplyRateLimit(testMode, headers, CreateRateLimiters(testMode).api)
    {
      var l := GetRateLimiters();
      r := ApplyRateLimit(testMode, headers, l.api);
    }

    /** `checkRateLimit(key, limit, windowMs)` at time `now`. */
    method CheckRateLimit(key: string, limit: int, now: nat, windowMs: nat) returns (r: RateLimitResult)
      modifies store
      ensures store.incrFails == old(store.incrFails) && store.expireFails == old(store.expireFails)
      ensures Step(store.entries, r) == CheckStep(testMode, store.incrFails, store.expireFails, old(store.entries), key, limit, now, windowMs)
    {
      if testMode {
        return RateLimitResult(true, limit);
      }
      var redisKey := StoreKey(key, now, windowMs);
      var current := store.Incr(redisKey);
      if current.None? {
        return RateLimitResult(true, 0);
      }
      if current.value == 1 {
        var ok := store.Expire(redisKey, ExpirySeconds(windowMs));
        if !ok {
          return RateLimitResult(true, 0);
        }
      }
      r := Decide(current.value, limit);
    }
  }
}
