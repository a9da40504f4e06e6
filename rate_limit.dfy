/**
 * The fixed-window rate limiter of lib/rate-limit.ts: a process-wide map from
 * identifier to {count, resetTime}, one counting call per request, and the body
 * of the periodic sweep that drops entries whose window has elapsed.
 * Times are integer milliseconds since the epoch, supplied by the caller.
 */
module RateLimit {

  /** The default `limit` and `windowMs` parameters of `rateLimit`. */
  const DefaultLimit: int := 10
  const DefaultWindowMs: int := 60 * 1000

  /** One stored counter: requests seen in the current window, and when it ends. */
  datatype Entry = Entry(count: int, resetTime: int)

  datatype RateLimitResult = RateLimitResult(
    success: bool,
    limit: int,
    remaining: int,
    reset: int,
    retryAfter: int)

  /** The store after a call, and what the call returned. */
  datatype Step = Step(store: map<string, Entry>, result: RateLimitResult)

  /** Milliseconds rounded up to whole seconds, negative amounts included. */
  function CeilSeconds(ms: int): (r: int)
    ensures 1000 * (r - 1) < ms <= 1000 * r
  {
    -((-ms) / 1000)
  }

  /** The window of `e` is over only once `now` is strictly past `resetTime`. */
  predicate WindowElapsed(e: Entry, now: int)
  {
    now > e.resetTime
  }

  /** One `rateLimit(identifier, limit, windowMs)` call at time `now`. */
  function Apply(store: map<string, Entry>, id: string, limit: int, windowMs: int, now: int): (s: Step)
    ensures s.store.Keys == store.Keys + {id}
    ensures forall k :: k in store && k != id ==> s.store[k] == store[k]
    ensures s.result.limit == limit
    ensures s.result.success <==> id !in store || WindowElapsed(store[id], now) || store[id].count < limit
    ensures !s.result.success ==>
      s.store == store && s.result.remaining == 0 && s.result.retryAfter == CeilSeconds(store[id].resetTime - now)
    ensures s.result.success ==> s.result.retryAfter == 0 && s.result.remaining == limit - s.store[id].count
    ensures s.result.reset == CeilSeconds(s.store[id].resetTime)
  {
    if id !in store || WindowElapsed(store[id], now) then
      Step(store[id := Entry(1, now + windowMs)],
           RateLimitResult(true, limit, limit - 1, CeilSeconds(now + windowMs), 0))
    else if store[id].count >= limit then
      Step(store,
           RateLimitResult(false, limit, 0, CeilSeconds(store[id].resetTime),
                           CeilSeconds(store[id].resetTime - now)))
    else
      var entry := store[id].(count := store[id].count + 1);
      Step(store[id := entry],
           RateLimitResult(true, limit, limit - entry.count, CeilSeconds(entry.resetTime), 0))
  }

  /** What the sweep keeps: the entries whose window has not elapsed at `now`. */
  function Swept(store: map<string, Entry>, now: int): (m: map<string, Entry>)
    ensures forall k :: k in m <==> k in store && !WindowElapsed(store[k], now)
    ensures forall k :: k in m ==> m[k] == store[k]
  {
    map k | k in store && !WindowElapsed(store[k], now) :: store[k]
  }

  /** Every stored count is between 1 and `limit`. */
  predicate Bounded(store: map<string, Entry>, limit: int)
  {
    forall k :: k in store ==> 1 <= store[k].count <= limit
  }

  /** The results of successive calls for one identifier at the given times. */
  function Run(store: map<string, Entry>, id: string, limit: int, windowMs: int, times: seq<int>)
    : (rs: seq<RateLimitResult>)
    ensures |rs| == |times|
    decreases |times|
  {
    if times == [] then []
    else
      var s := Apply(store, id, limit, windowMs, times[0]);
      [s.result] + Run(s.store, id, limit, windowMs, times[1..])
  }

  /** The process-wide store of lib/rate-limit.ts, owned explicitly. */
  class RateLimiter {
    var store: map<string, Entry>

    constructor ()
      ensures store == map[]
    {
      store := map[];
    }

    /** `rateLimit(identifier, limit, windowMs)`, with `Date.now()` supplied as `now`. */
    method RateLimit(identifier: string, limit: int, windowMs: int, now: int) returns (r: RateLimitResult)
      modifies this
      ensures store == Apply(old(store), identifier, limit, windowMs, now).store
      ensures r == Apply(old(store), identifier, limit, windowMs, now).result
      ensures limit >= 1 && Bounded(old(store), limit) ==> Bounded(store, limit)
    {
      var resetTime := now + windowMs;
      if identifier !in store || now > store[identifier].resetTime {
        store := store[identifier := Entry(1, resetTime)];
        r := RateLimitResult(true, limit, limit - 1, CeilSeconds(resetTime), 0);
        return;
      }
      var entry := store[identifier];
      if entry.count >= limit {
        r := RateLimitResult(false, limit, 0, CeilSeconds(entry.resetTime), CeilSeconds(entry.resetTime - now));
        return;
      }
      entry := entry.(count := entry.count + 1);
      store := store[identifier := entry];
      r := RateLimitResult(true, limit, limit - entry.count, CeilSeconds(entry.resetTime), 0);
    }

    /** One firing of the cleanup timer: delete every entry with `now > resetTime`. */
    method Sweep(now: int)
      modifies this
      ensures store == Swept(old(store), now)
    {
      var pending := store.Keys;
      ghost var original := store;
      while pending != {}
        invariant pending <= original.Keys
        invariant forall k :: k in store <==> k in original && (k in pending || !WindowElapsed(original[k], now))
        invariant forall k :: k in store ==> store[k] == original[k]
        decreases pending
      {
        var key :| key in pending;
        if now > store[key].resetTime {
          store := store - {key};
        }
        pending := pending - {key};
      }
      assert store == Swept(original, now);
    }
  }

  /** No entry, or an elapsed window: a fresh window with count 1. */
  lemma NewWindow(store: map<string, Entry>, id: string, limit: int, windowMs: int, now: int)
    requires id !in store || WindowElapsed(store[id], now)
    ensures Apply(store, id, limit, windowMs, now)
            == Step(store[id := Entry(1, now + windowMs)],
                    RateLimitResult(true, limit, limit - 1, CeilSeconds(now + windowMs), 0))
  {
  }

  /** Inside the window at the limit: refused, store untouched, retry hint in seconds. */
  lemma Exceeded(store: map<string, Entry>, id: string, limit: int, windowMs: int, now: int)
    requires id in store && !WindowElapsed(store[id], now) && store[id].count >= limit
    ensures Apply(store, id, limit, windowMs, now)
            == Step(store, RateLimitResult(false, limit, 0, CeilSeconds(store[id].resetTime),
                                           CeilSeconds(store[id].resetTime - now)))
    ensures now < store[id].resetTime ==> Apply(store, id, limit, windowMs, now).result.retryAfter >= 1
    ensures now == store[id].resetTime ==> Apply(store, id, limit, windowMs, now).result.retryAfter == 0
  {
  }

  /** Inside the window below the limit: count goes up by exactly one, resetTime is kept. */
  lemma Increment(store: map<string, Entry>, id: string, limit: int, windowMs: int, now: int)
    requires id in store && !WindowElapsed(store[id], now) && store[id].count < limit
    ensures Apply(store, id, limit, windowMs, now).store
            == store[id := Entry(store[id].count + 1, store[id].resetTime)]
    ensures Apply(store, id, limit, windowMs, now).result.remaining == limit - store[id].count - 1
  {
  }

  /** The invariant `1 <= count <= limit`, and the range of `remaining` on success. */
  lemma ApplyKeepsBounded(store: map<string, Entry>, id: string, limit: int, windowMs: int, now: int)
    requires limit >= 1 && Bounded(store, limit)
    ensures Bounded(Apply(store, id, limit, windowMs, now).store, limit)
    ensures Apply(store, id, limit, windowMs, now).result.success ==>
      0 <= Apply(store, id, limit, windowMs, now).result.remaining <= limit - 1
  {
  }

  /**
   * Starting from an entry with count `c` and window end `reset`, calls made no
   * later than `reset` succeed exactly while `c + i < limit`.
   */
  lemma {:induction false} RunInsideWindow(store: map<string, Entry>, id: string, limit: int, windowMs: int,
                                           times: seq<int>, c: int, reset: int)
    requires id in store && store[id] == Entry(c, reset)
    requires forall i :: 0 <= i < |times| ==> times[i] <= reset
    ensures forall i :: 0 <= i < |times| ==> Run(store, id, limit, windowMs, times)[i].success == (c + i < limit)
    decreases |times|
  {
    if times != [] {
      var s := Apply(store, id, limit, windowMs, times[0]);
      var rs := Run(store, id, limit, windowMs, times);
      assert rs == [s.result] + Run(s.store, id, limit, windowMs, times[1..]);
      var next := if c < limit then c + 1 else c;
      assert s.store[id] == Entry(next, reset);
      RunInsideWindow(s.store, id, limit, windowMs, times[1..], next, reset);
      forall i | 0 <= i < |times| ensures rs[i].success == (c + i < limit) {
        if i > 0 {
          assert rs[i] == Run(s.store, id, limit, windowMs, times[1..])[i - 1];
        }
      }
    }
  }

  /**
   * Within one fixed window opened by the first call, call `i` succeeds iff it is
   * the first call or `i < limit`: exactly `limit` calls pass when `limit >= 1`,
   * and `now == resetTime` still belongs to the window.
   */
  lemma ExactlyLimitPerWindow(store: map<string, Entry>, id: string, limit: int, windowMs: int, times: seq<int>)
    requires |times| >= 1
    requires id !in store || WindowElapsed(store[id], times[0])
    requires forall i :: 0 <= i < |times| ==> times[i] <= times[0] + windowMs
    ensures forall i :: 0 <= i < |times| ==>
      Run(store, id, limit, windowMs, times)[i].success == (i == 0 || i < limit)
  {
    var s := Apply(store, id, limit, windowMs, times[0]);
    var rs := Run(store, id, limit, windowMs, times);
    assert rs == [s.result] + Run(s.store, id, limit, windowMs, times[1..]);
    RunInsideWindow(s.store, id, limit, windowMs, times[1..], 1, times[0] + windowMs);
    forall i | 0 <= i < |times| ensures rs[i].success == (i == 0 || i < limit) {
      if i > 0 {
        assert rs[i] == Run(s.store, id, limit, windowMs, times[1..])[i - 1];
      }
    }
  }

  /**
   * After a successful call that left count `c`, the reported `remaining` is the
   * number of further calls inside the same window that will still succeed.
   */
  lemma RemainingCountsFurtherAdmissions(store: map<string, Entry>, id: string, limit: int, windowMs: int,
                                         now: int, later: seq<int>)
    requires Apply(store, id, limit, windowMs, now).result.success
    requires forall i :: 0 <= i < |later| ==> later[i] <= Apply(store, id, limit, windowMs, now).store[id].resetTime
    ensures forall i :: 0 <= i < |later| ==>
      Run(Apply(store, id, limit, windowMs, now).store, id, limit, windowMs, later)[i].success
      == (i < Apply(store, id, limit, windowMs, now).result.remaining)
  {
    var s := Apply(store, id, limit, windowMs, now);
    RunInsideWindow(s.store, id, limit, windowMs, later, s.store[id].count, s.store[id].resetTime);
  }

  /** A call for one identifier leaves every other identifier's entry as it was. */
  lemma OthersUntouched(store: map<string, Entry>, id: string, other: string, limit: int, windowMs: int, now: int)
    requires other != id
    ensures other in Apply(store, id, limit, windowMs, now).store <==> other in store
    ensures other in store ==> Apply(store, id, limit, windowMs, now).store[other] == store[other]
  {
  }

  /**
   * The sweep is garbage collection only: a call made no earlier than the sweep
   * gets the same answer and leaves the same entry whether or not the sweep ran.
   */
  lemma SweepIsUnobservable(store: map<string, Entry>, sweptAt: int, id: string, limit: int, windowMs: int, now: int)
    requires sweptAt <= now
    ensures Apply(Swept(store, sweptAt), id, limit, windowMs, now).result
            == Apply(store, id, limit, windowMs, now).result
    ensures Apply(Swept(store, sweptAt), id, limit, windowMs, now).store[id]
            == Apply(store, id, limit, windowMs, now).store[id]
  {
  }

  /** The sweep keeps the counting invariant. */
  lemma SweptKeepsBounded(store: map<string, Entry>, limit: int, now: int)
    requires Bounded(store, limit)
    ensures Bounded(Swept(store, now), limit)
  {
  }

  /**
   * The scenario of limit 3 and a 60 s window on an empty store: three calls pass,
   * the fourth is refused with a positive retry hint; at exactly 60 s after the
   * first call the window is still closed, one millisecond later it reopens.
   */
  lemma ThreePerMinuteScenario()
    ensures var rs := Run(map[], "10.0.0.1", 3, 60000, [0, 1000, 2000, 3000]);
      rs[0].success && rs[1].success && rs[2].success && !rs[3].success && rs[3].retryAfter == 57
    ensures !Apply(map["10.0.0.1" := Entry(3, 60000)], "10.0.0.1", 3, 60000, 60000).result.success
    ensures Apply(map["10.0.0.1" := Entry(3, 60000)], "10.0.0.1", 3, 60000, 60001)
            == Step(map["10.0.0.1" := Entry(1, 120001)], RateLimitResult(true, 3, 2, 121, 0))
  {
    var times := [0, 1000, 2000, 3000];
    ExactlyLimitPerWindow(map[], "10.0.0.1", 3, 60000, times);
    var s0 := Apply(map[], "10.0.0.1", 3, 60000, 0);
    var s1 := Apply(s0.store, "10.0.0.1", 3, 60000, 1000);
    var s2 := Apply(s1.store, "10.0.0.1", 3, 60000, 2000);
    var s3 := Apply(s2.store, "10.0.0.1", 3, 60000, 3000);
    assert s2.store["10.0.0.1"] == Entry(3, 60000);
    assert Run(map[], "10.0.0.1", 3, 60000, times)[3] == s3.result by {
      assert times[1..] == [1000, 2000, 3000];
      assert times[1..][1..] == [2000, 3000];
      assert times[1..][1..][1..] == [3000];
    }
  }
}
