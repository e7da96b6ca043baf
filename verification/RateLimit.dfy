/** The gateway's two rate limiters (services/gateway/src/rate_limit.rs) over an expiring counter store.

    The store stands for Redis: a map from key to a count and an optional expiry, read on one clock in whole
    seconds. A key is live strictly before its expiry.
 */
module RateLimit {
  import opened Common

  const WINDOW: nat := 3600

  datatype Entry = Entry(count: nat, expiry: Option<nat>)

  type Store = map<string, Entry>

  datatype Info = Info(limit: nat, remaining: nat, reset: nat, retryAfter: Option<nat>)

  function Key(user: string): string {
    "rate_limit:" + user
  }

  lemma KeysDiffer(u: string, v: string)
    requires u != v
    ensures Key(u) != Key(v)
  {
    assert Key(u)[11..] == u && Key(v)[11..] == v;
  }

  // ---------- the store's commands ----------

  predicate Live(s: Store, k: string, now: nat) {
    k in s && (s[k].expiry.Some? ==> now < s[k].expiry.value)
  }

  function Get(s: Store, k: string, now: nat): Option<nat> {
    if Live(s, k, now) then Some(s[k].count) else None
  }

  function Incr(s: Store, k: string, now: nat): Store {
    s[k := if Live(s, k, now) then s[k].(count := s[k].count + 1) else Entry(1, None)]
  }

  function Expire(s: Store, k: string, now: nat, secs: nat): Store {
    if Live(s, k, now) then s[k := s[k].(expiry := Some(now + secs))] else s
  }

  function Ttl(s: Store, k: string, now: nat): int {
    if !Live(s, k, now) then -2
    else if s[k].expiry.None? then -1
    else s[k].expiry.value - now
  }

  // ---------- the two algorithms ----------

  /** INCR, EXPIRE and TTL in one transaction: the expiry moves on every request. */
  function Pipe(max: nat, s: Store, k: string, now: nat): (Store, Info) {
    var s' := Expire(Incr(s, k, now), k, now, WINDOW);
    var count := s'[k].count;
    (s',
     if count > max then Info(max, 0, now + WINDOW, Some(WINDOW))
     else Info(max, max - count, now + WINDOW, None))
  }

  /** The script: refuse at the limit without counting; the expiry is set by the first request only. */
  function Lua(max: nat, s: Store, k: string, now: nat): (Store, Info) {
    var current := if Live(s, k, now) then s[k].count else 0;
    if current >= max then
      var ttl := if Ttl(s, k, now) < 0 then WINDOW else Ttl(s, k, now);
      (s, Info(max, 0, now + ttl, Some(ttl)))
    else
      var counted := Incr(s, k, now);
      var s' := if counted[k].count == 1 then Expire(counted, k, now, WINDOW) else counted;
      var ttl := if Ttl(s', k, now) < 0 then WINDOW else Ttl(s', k, now);
      (s', Info(max, max - s'[k].count, now + ttl, None))
  }

  class RateLimiter {
    var redis: Store
    const requestsPerHour: nat

    constructor (requestsPerHour: nat)
      ensures redis == map[] && this.requestsPerHour == requestsPerHour
    {
      this.requestsPerHour := requestsPerHour;
      redis := map[];
    }

    method CheckRateLimit(user: string, now: nat) returns (info: Info)
      modifies this
      ensures (redis, info) == Pipe(requestsPerHour, old(redis), Key(user), now)
    {
      var key := Key(user);
      redis := Incr(redis, key, now);
      var count := redis[key].count;
      redis := Expire(redis, key, now, WINDOW);
      var ttl := Ttl(redis, key, now);
      var reset := now + ttl;
      if count > requestsPerHour {
        var retryAfter := if ttl > 0 then ttl else WINDOW;
        info := Info(requestsPerHour, 0, reset, Some(retryAfter));
      } else {
        info := Info(requestsPerHour, requestsPerHour - count, reset, None);
      }
    }

    method CheckRateLimitLua(user: string, now: nat) returns (info: Info)
      modifies this
      ensures (redis, info) == Lua(requestsPerHour, old(redis), Key(user), now)
    {
      var key := Key(user);
      var stored := Get(redis, key, now);
      var current := 0;
      if stored.Some? {
        current := stored.value;
      }
      var ttl: int;
      if current >= requestsPerHour {
        ttl := Ttl(redis, key, now);
        if ttl < 0 {
          ttl := WINDOW;
        }
        info := Info(requestsPerHour, 0, now + ttl, Some(ttl));
        return;
      }
      redis := Incr(redis, key, now);
      var newCount := redis[key].count;
      if newCount == 1 {
        redis := Expire(redis, key, now, WINDOW);
      }
      ttl := Ttl(redis, key, now);
      if ttl < 0 {
        ttl := WINDOW;
      }
      info := Info(requestsPerHour, Max(requestsPerHour - newCount, 0), now + ttl, None);
    }
  }

  // ---------- runs from an empty store ----------

  datatype Request = Request(user: string, now: nat)

  ghost predicate Timed(reqs: seq<Request>) {
    forall i, j :: 0 <= i < j < |reqs| ==> reqs[i].now <= reqs[j].now
  }

  function LuaAt(max: nat, reqs: seq<Request>, n: nat): Store
    requires n <= |reqs|
  {
    if n == 0 then map[] else Lua(max, LuaAt(max, reqs, n - 1), Key(reqs[n - 1].user), reqs[n - 1].now).0
  }

  function LuaInfo(max: nat, reqs: seq<Request>, n: nat): Info
    requires n < |reqs|
  {
    Lua(max, LuaAt(max, reqs, n), Key(reqs[n].user), reqs[n].now).1
  }

  predicate LuaAllows(max: nat, reqs: seq<Request>, n: nat)
    requires n < |reqs|
  {
    LuaInfo(max, reqs, n).retryAfter.None?
  }

  function PipeAt(max: nat, reqs: seq<Request>, n: nat): Store
    requires n <= |reqs|
  {
    if n == 0 then map[] else Pipe(max, PipeAt(max, reqs, n - 1), Key(reqs[n - 1].user), reqs[n - 1].now).0
  }

  predicate PipeAllows(max: nat, reqs: seq<Request>, n: nat)
    requires n < |reqs|
  {
    Pipe(max, PipeAt(max, reqs, n), Key(reqs[n].user), reqs[n].now).1.retryAfter.None?
  }

  // ---------- the counter, read off the log of accepted requests ----------

  ghost predicate Accepted(max: nat, reqs: seq<Request>, u: string, i: nat)
    requires i < |reqs|
  {
    reqs[i].user == u && LuaAllows(max, reqs, i)
  }

  /** Accepted requests of `u` in positions `lo` to `hi`. */
  ghost function Count(max: nat, reqs: seq<Request>, u: string, lo: nat, hi: nat): nat
    requires hi <= |reqs|
  {
    if hi <= lo then 0
    else Count(max, reqs, u, lo, hi - 1) + if Accepted(max, reqs, u, hi - 1) then 1 else 0
  }

  /** The accepted request that opened the current window of `u`: the first accepted request that does not
      fall within `WINDOW` of an earlier opener. */
  ghost function Opener(max: nat, reqs: seq<Request>, u: string, n: nat): Option<nat>
    requires n <= |reqs|
    ensures Opener(max, reqs, u, n).Some? ==> Opener(max, reqs, u, n).value < n
  {
    if n == 0 then None
    else
      var w := Opener(max, reqs, u, n - 1);
      if Accepted(max, reqs, u, n - 1) && (w.None? || reqs[n - 1].now >= reqs[w.value].now + WINDOW)
      then Some(n - 1) else w
  }

  /** At every point of every run, each user's stored entry is the number of accepted requests since the opener
      of the current window, expiring `WINDOW` after it, and the count stays within the limit. */
  lemma {:induction false} CounterIsLog(max: nat, reqs: seq<Request>, u: string, n: nat)
    requires n <= |reqs|
    ensures match Opener(max, reqs, u, n)
            case None => Key(u) !in LuaAt(max, reqs, n)
            case Some(w) =>
              && Key(u) in LuaAt(max, reqs, n)
              && LuaAt(max, reqs, n)[Key(u)] == Entry(Count(max, reqs, u, w, n), Some(reqs[w].now + WINDOW))
              && 1 <= Count(max, reqs, u, w, n) <= max
  {
    if n > 0 {
      CounterIsLog(max, reqs, u, n - 1);
      if reqs[n - 1].user != u {
        KeysDiffer(reqs[n - 1].user, u);
      }
    }
  }

  /** A request is accepted exactly when its window, if it is in one, still has room in the log; and the
      response headers are functions of the log: `remaining` falls by one per accepted request and `reset` is
      the same throughout a window. */
  lemma HeadersFromLog(max: nat, reqs: seq<Request>, n: nat)
    requires n < |reqs|
    ensures var u, now := reqs[n].user, reqs[n].now;
            match Opener(max, reqs, u, n)
            case Some(w) =>
              if now < reqs[w].now + WINDOW then
                var end := reqs[w].now + WINDOW;
                LuaInfo(max, reqs, n) ==
                if Count(max, reqs, u, w, n) < max then Info(max, max - Count(max, reqs, u, w, n + 1), end, None)
                else Info(max, 0, end, Some(end - now))
              else max > 0 && LuaInfo(max, reqs, n) == Info(max, max - 1, now + WINDOW, None)
            case None =>
              LuaInfo(max, reqs, n) ==
              if max > 0 then Info(max, max - 1, now + WINDOW, None) else Info(0, 0, now + WINDOW, Some(WINDOW))
  {
    CounterIsLog(max, reqs, reqs[n].user, n);
  }

  ghost predicate SameEntry(s: Store, s': Store, k: string) {
    (k in s <==> k in s') && (k in s ==> s[k] == s'[k])
  }

  lemma LuaIsLocal(max: nat, s: Store, s': Store, k: string, now: nat)
    requires SameEntry(s, s', k)
    ensures Lua(max, s, k, now).1 == Lua(max, s', k, now).1
    ensures SameEntry(Lua(max, s, k, now).0, Lua(max, s', k, now).0, k)
    ensures forall j :: j != k ==> SameEntry(Lua(max, s, k, now).0, s, j)
  {}

  ghost function OwnRun(max: nat, reqs: seq<Request>, u: string, n: nat): Store
    requires n <= |reqs|
  {
    if n == 0 then map[]
    else if reqs[n - 1].user != u then OwnRun(max, reqs, u, n - 1)
    else Lua(max, OwnRun(max, reqs, u, n - 1), Key(u), reqs[n - 1].now).0
  }

  /** A user's answers are those of a run in which nobody else sends anything. */
  lemma {:induction false} UsersAreIndependent(max: nat, reqs: seq<Request>, u: string, n: nat)
    requires n <= |reqs|
    ensures SameEntry(LuaAt(max, reqs, n), OwnRun(max, reqs, u, n), Key(u))
    ensures n < |reqs| && reqs[n].user == u ==>
            LuaInfo(max, reqs, n) == Lua(max, OwnRun(max, reqs, u, n), Key(u), reqs[n].now).1
  {
    if n > 0 {
      UsersAreIndependent(max, reqs, u, n - 1);
      var r := reqs[n - 1];
      if r.user != u {
        KeysDiffer(r.user, u);
        LuaIsLocal(max, LuaAt(max, reqs, n - 1), LuaAt(max, reqs, n - 1), Key(r.user), r.now);
      } else {
        LuaIsLocal(max, LuaAt(max, reqs, n - 1), OwnRun(max, reqs, u, n - 1), Key(u), r.now);
      }
    }
    if n < |reqs| && reqs[n].user == u {
      LuaIsLocal(max, LuaAt(max, reqs, n), OwnRun(max, reqs, u, n), Key(u), reqs[n].now);
    }
  }

  // ---------- how many requests fit in any stretch of one window's length ----------

  ghost predicate InSpan(max: nat, reqs: seq<Request>, u: string, t: nat, i: nat)
    requires i < |reqs|
  {
    Accepted(max, reqs, u, i) && t <= reqs[i].now < t + 3600
  }

  /** Accepted requests of `u` at times in the hour from `t`, among positions `lo` to `hi`. */
  ghost function SpanCount(max: nat, reqs: seq<Request>, u: string, t: nat, lo: nat, hi: nat): nat
    requires hi <= |reqs|
  {
    if hi <= lo then 0
    else SpanCount(max, reqs, u, t, lo, hi - 1) + if InSpan(max, reqs, u, t, hi - 1) then 1 else 0
  }

  lemma {:induction false} SpanCountSplits(max: nat, reqs: seq<Request>, u: string, t: nat, lo: nat, mid: nat, hi: nat)
    requires lo <= mid <= hi <= |reqs|
    ensures SpanCount(max, reqs, u, t, lo, hi) == SpanCount(max, reqs, u, t, lo, mid) + SpanCount(max, reqs, u, t, mid, hi)
    decreases hi
  {
    if mid < hi {
      SpanCountSplits(max, reqs, u, t, lo, mid, hi - 1);
    }
  }

  lemma {:induction false} SpanWithinCount(max: nat, reqs: seq<Request>, u: string, t: nat, lo: nat, hi: nat)
    requires hi <= |reqs|
    ensures SpanCount(max, reqs, u, t, lo, hi) <= Count(max, reqs, u, lo, hi)
    ensures lo < hi && Accepted(max, reqs, u, lo) && !InSpan(max, reqs, u, t, lo) ==>
            SpanCount(max, reqs, u, t, lo, hi) < Count(max, reqs, u, lo, hi)
    decreases hi
  {
    if lo < hi {
      SpanWithinCount(max, reqs, u, t, lo, hi - 1);
    }
  }

  lemma {:induction false} SpanEmpty(max: nat, reqs: seq<Request>, u: string, t: nat, lo: nat, hi: nat)
    requires hi <= |reqs| && forall i :: lo <= i < hi ==> !InSpan(max, reqs, u, t, i)
    ensures SpanCount(max, reqs, u, t, lo, hi) == 0
    decreases hi
  {
    if lo < hi {
      SpanEmpty(max, reqs, u, t, lo, hi - 1);
    }
  }

  /** The opener was accepted, and openers are at least `WINDOW` apart. */
  lemma {:induction false} OpenersApart(max: nat, reqs: seq<Request>, u: string, n: nat)
    requires n <= |reqs| && Opener(max, reqs, u, n).Some?
    ensures var w := Opener(max, reqs, u, n).value;
            && Accepted(max, reqs, u, w)
            && (var v := Opener(max, reqs, u, w); v.None? || reqs[v.value].now + WINDOW <= reqs[w].now)
  {
    if Opener(max, reqs, u, n) == Opener(max, reqs, u, n - 1) {
      OpenersApart(max, reqs, u, n - 1);
    }
  }

  lemma {:induction false} NoneBeforeFirstOpener(max: nat, reqs: seq<Request>, u: string, n: nat)
    requires n <= |reqs| && Opener(max, reqs, u, n).None?
    ensures forall i :: 0 <= i < n ==> !Accepted(max, reqs, u, i)
  {
    if n > 0 {
      NoneBeforeFirstOpener(max, reqs, u, n - 1);
    }
  }

  /** Whatever the arrival pattern, any stretch of an hour holds at most `2 * max - 1` accepted
      requests of a user (none when the limit is zero). */
  lemma {:induction false} SpanBound(max: nat, reqs: seq<Request>, u: string, t: nat, n: nat)
    requires n <= |reqs| && Timed(reqs)
    ensures SpanCount(max, reqs, u, t, 0, n) <= Max(0, 2 * max - 1)
    decreases n
  {
    CounterIsLog(max, reqs, u, n);
    match Opener(max, reqs, u, n)
    case None =>
      NoneBeforeFirstOpener(max, reqs, u, n);
      SpanEmpty(max, reqs, u, t, 0, n);
    case Some(w) =>
      OpenersApart(max, reqs, u, n);
      SpanCountSplits(max, reqs, u, t, 0, w, n);
      SpanWithinCount(max, reqs, u, t, w, n);
      if reqs[w].now < t {
        SpanEmpty(max, reqs, u, t, 0, w);
      } else if reqs[w].now >= t + WINDOW {
        SpanEmpty(max, reqs, u, t, w, n);
        SpanBound(max, reqs, u, t, w);
      } else {
        PreviousWindow(max, reqs, u, t, w);
      }
  }

  /** With the window opened at `w` overlapping the stretch, the one before it has lost its opener to it. */
  lemma PreviousWindow(max: nat, reqs: seq<Request>, u: string, t: nat, w: nat)
    requires w < |reqs| && Timed(reqs) && Accepted(max, reqs, u, w) && t <= reqs[w].now < t + WINDOW
    requires var v := Opener(max, reqs, u, w); v.None? || reqs[v.value].now + WINDOW <= reqs[w].now
    ensures max > 0 && SpanCount(max, reqs, u, t, 0, w) <= max - 1
  {
    CounterIsLog(max, reqs, u, w);
    match Opener(max, reqs, u, w)
    case None =>
      NoneBeforeFirstOpener(max, reqs, u, w);
      SpanEmpty(max, reqs, u, t, 0, w);
    case Some(v) =>
      OpenersApart(max, reqs, u, w);
      SpanCountSplits(max, reqs, u, t, 0, v, w);
      SpanEmpty(max, reqs, u, t, 0, v);
      SpanWithinCount(max, reqs, u, t, v, w);
  }

  /** The bound is met: one request early, the rest of a window just before it ends, a full window just after. */
  ghost function Burst(max: nat, u: string): seq<Request> {
    seq(2 * max, i => Request(u, if i == 0 then 0 else if i < max then WINDOW - 1 else WINDOW))
  }

  ghost function BurstStore(max: nat, u: string, n: nat): Store {
    if n == 0 then map[]
    else if n <= max then map[Key(u) := Entry(n, Some(WINDOW))]
    else map[Key(u) := Entry(n - max, Some(2 * WINDOW))]
  }

  lemma BurstStep(max: nat, u: string, n: nat)
    requires 0 < max && n < 2 * max
    ensures var now := Burst(max, u)[n].now;
            && Lua(max, BurstStore(max, u, n), Key(u), now).0 == BurstStore(max, u, n + 1)
            && Lua(max, BurstStore(max, u, n), Key(u), now).1.retryAfter.None?
  {}

  lemma {:induction false} BurstState(max: nat, u: string, n: nat)
    requires 0 < max && n <= 2 * max
    ensures LuaAt(max, Burst(max, u), n) == BurstStore(max, u, n)
    ensures n < 2 * max ==> Accepted(max, Burst(max, u), u, n)
  {
    if n > 0 {
      BurstState(max, u, n - 1);
      BurstStep(max, u, n - 1);
    }
    if n < 2 * max {
      BurstStep(max, u, n);
    }
  }

  lemma {:induction false} SpanBoundIsTight(max: nat, u: string, n: nat)
    requires 0 < max && 1 <= n <= 2 * max
    ensures Timed(Burst(max, u))
    ensures SpanCount(max, Burst(max, u), u, WINDOW - 1, 1, n) == n - 1
  {
    if n > 1 {
      SpanBoundIsTight(max, u, n - 1);
      BurstState(max, u, n - 1);
    }
  }

  /** The limit as documented: no stretch of an hour holds more than `max` accepted requests of a user. */
  ghost predicate LimitsEveryWindow(max: nat) {
    forall reqs, u, t: nat, n: nat :: n <= |reqs| && Timed(reqs) ==> SpanCount(max, reqs, u, t, 0, n) <= max
  }

  /** The script keeps the documented limit exactly for limits of zero and one. */
  lemma LimitsEveryWindowIff(max: nat)
    ensures LimitsEveryWindow(max) <==> max <= 1
  {
    if max <= 1 {
      forall reqs, u, t: nat, n: nat | n <= |reqs| && Timed(reqs) ensures SpanCount(max, reqs, u, t, 0, n) <= max {
        SpanBound(max, reqs, u, t, n);
      }
    } else {
      var reqs := Burst(max, "");
      SpanBoundIsTight(max, "", 2 * max);
      SpanCountSplits(max, reqs, "", WINDOW - 1, 0, 1, 2 * max);
      assert SpanCount(max, reqs, "", WINDOW - 1, 0, 2 * max) > max;
    }
  }

  // ---------- the pipe's counter, read off the log of all requests ----------

  ghost function LastOf(reqs: seq<Request>, u: string, n: nat): (r: Option<nat>)
    requires n <= |reqs|
    ensures r.Some? ==> r.value < n
  {
    if n == 0 then None else if reqs[n - 1].user == u then Some(n - 1) else LastOf(reqs, u, n - 1)
  }

  /** The request of `u` that began the current chain: no later one came `WINDOW` or more after the one before it. */
  ghost function ChainStart(reqs: seq<Request>, u: string, n: nat): (r: Option<nat>)
    requires n <= |reqs|
    ensures r.Some? ==> r.value < n
  {
    if n == 0 then None
    else if reqs[n - 1].user != u then ChainStart(reqs, u, n - 1)
    else
      var last := LastOf(reqs, u, n - 1);
      if last.Some? && reqs[n - 1].now < reqs[last.value].now + WINDOW then ChainStart(reqs, u, n - 1) else Some(n - 1)
  }

  ghost function Sent(reqs: seq<Request>, u: string, lo: nat, hi: nat): nat
    requires hi <= |reqs|
  {
    if hi <= lo then 0 else Sent(reqs, u, lo, hi - 1) + if reqs[hi - 1].user == u then 1 else 0
  }

  /** The pipe counts every request of the chain, refused ones included, and expires a window after the last. */
  lemma {:induction false} PipeCounterIsLog(max: nat, reqs: seq<Request>, u: string, n: nat)
    requires n <= |reqs|
    ensures ChainStart(reqs, u, n).Some? <==> LastOf(reqs, u, n).Some?
    ensures match ChainStart(reqs, u, n)
            case None => Key(u) !in PipeAt(max, reqs, n)
            case Some(w) =>
              && Key(u) in PipeAt(max, reqs, n)
              && PipeAt(max, reqs, n)[Key(u)] ==
                 Entry(Sent(reqs, u, w, n), Some(reqs[LastOf(reqs, u, n).value].now + WINDOW))
  {
    if n > 0 {
      PipeCounterIsLog(max, reqs, u, n - 1);
      if reqs[n - 1].user != u {
        KeysDiffer(reqs[n - 1].user, u);
      }
    }
  }

  /** The pipe allows a request exactly when it is among the first `max` of its chain. */
  lemma PipeAllowsExactly(max: nat, reqs: seq<Request>, n: nat)
    requires n < |reqs|
    ensures var u := reqs[n].user;
            var w := ChainStart(reqs, u, n + 1);
            w.Some? && (PipeAllows(max, reqs, n) <==> Sent(reqs, u, w.value, n + 1) <= max)
  {
    PipeCounterIsLog(max, reqs, reqs[n].user, n + 1);
  }

  /** And its headers: what is left is the limit less the requests of the chain, and the window always ends a whole
      window after this request, which is also how long a refused user is told to wait. */
  lemma PipeHeadersFromLog(max: nat, reqs: seq<Request>, n: nat)
    requires n < |reqs|
    ensures var u, end := reqs[n].user, reqs[n].now + 3600;
            var w := ChainStart(reqs, u, n + 1);
            && w.Some?
            && Pipe(max, PipeAt(max, reqs, n), Key(u), reqs[n].now).1 ==
               (if Sent(reqs, u, w.value, n + 1) <= max then Info(max, max - Sent(reqs, u, w.value, n + 1), end, None)
                else Info(max, 0, end, Some(3600)))
  {
    PipeCounterIsLog(max, reqs, reqs[n].user, n + 1);
  }

  // ---------- the two limiters compared ----------

  /** At time `t`, a key live for the script is live for the pipe, with at least the same count. */
  ghost predicate Dominates(pipe: Store, lua: Store, t: nat) {
    forall k :: k in lua ==>
      && lua[k].expiry.Some? && lua[k].expiry.value <= t + WINDOW
      && k in pipe && pipe[k].expiry.Some? && lua[k].expiry.value <= pipe[k].expiry.value
      && (t < lua[k].expiry.value ==> lua[k].count <= pipe[k].count)
  }

  lemma DominatesStep(max: nat, pipe: Store, lua: Store, t: nat, k: string, now: nat)
    requires Dominates(pipe, lua, t) && t <= now
    ensures Dominates(Pipe(max, pipe, k, now).0, Lua(max, lua, k, now).0, now)
  {
    var pipe', lua' := Pipe(max, pipe, k, now).0, Lua(max, lua, k, now).0;
    forall j | j in lua'
      ensures && lua'[j].expiry.Some? && lua'[j].expiry.value <= now + WINDOW
              && j in pipe' && pipe'[j].expiry.Some? && lua'[j].expiry.value <= pipe'[j].expiry.value
              && (now < lua'[j].expiry.value ==> lua'[j].count <= pipe'[j].count)
    {
      if j != k {
        assert j in lua && lua'[j] == lua[j] && pipe'[j] == pipe[j];
      } else {
        assert pipe'[k].expiry == Some(now + WINDOW);
        assert k in lua ==> lua[k].expiry.value <= t + WINDOW;
      }
    }
  }

  lemma NothingIsDominated(pipe: Store)
    ensures Dominates(pipe, map[], 0)
  {}

  lemma {:induction false} PipeDominates(max: nat, reqs: seq<Request>, n: nat)
    requires n <= |reqs| && Timed(reqs)
    ensures Dominates(PipeAt(max, reqs, n), LuaAt(max, reqs, n), if n == 0 then 0 else reqs[n - 1].now)
  {
    hide Dominates;
    if n == 0 {
      NothingIsDominated(PipeAt(max, reqs, 0));
    } else {
      PipeDominates(max, reqs, n - 1);
      assert n > 1 ==> reqs[n - 2].now <= reqs[n - 1].now;
      DominatesStep(max, PipeAt(max, reqs, n - 1), LuaAt(max, reqs, n - 1),
                    if n == 1 then 0 else reqs[n - 2].now, Key(reqs[n - 1].user), reqs[n - 1].now);
    }
  }

  /** Whatever the pipe version allows, the script allows too, request by request. */
  lemma PipeAllowsImpliesLuaAllows(max: nat, reqs: seq<Request>, n: nat)
    requires n < |reqs| && Timed(reqs) && PipeAllows(max, reqs, n)
    ensures LuaAllows(max, reqs, n)
  {
    PipeDominates(max, reqs, n);
    assert n > 0 ==> reqs[n - 1].now <= reqs[n].now;
  }

  /** Request `k` of `u` comes less than `WINDOW` after another request of `u` at or after position `i`. */
  ghost predicate Follows(reqs: seq<Request>, u: string, i: nat, k: nat)
    requires i < k < |reqs|
  {
    exists m :: i <= m < k && reqs[m].user == u && reqs[k].now < reqs[m].now + WINDOW
  }

  /** A user the pipe version has refused stays refused for as long as they keep asking within the window,
      because refused requests are counted and push the expiry on. */
  lemma {:induction false} PipeStarves(max: nat, reqs: seq<Request>, u: string, i: nat, j: nat)
    requires Timed(reqs) && i <= j < |reqs| && reqs[i].user == u && !PipeAllows(max, reqs, i)
    requires forall k :: i < k <= j && reqs[k].user == u ==> Follows(reqs, u, i, k)
    ensures reqs[j].user == u ==> !PipeAllows(max, reqs, j)
    ensures var s := PipeAt(max, reqs, j + 1);
            && Key(u) in s && s[Key(u)].count > max && s[Key(u)].expiry.Some?
            && forall m :: i <= m <= j && reqs[m].user == u ==> reqs[m].now + WINDOW <= s[Key(u)].expiry.value
    decreases j
  {
    if i < j {
      PipeStarves(max, reqs, u, i, j - 1);
      if reqs[j].user == u {
        assert Follows(reqs, u, i, j);
      } else {
        KeysDiffer(reqs[j].user, u);
      }
    }
  }

  /** The script, by contrast, accepts the first request made once the window is over. */
  lemma LuaRecovers(max: nat, reqs: seq<Request>, n: nat)
    requires n < |reqs| && max > 0
    requires var w := Opener(max, reqs, reqs[n].user, n); w.Some? ==> reqs[w.value].now + WINDOW <= reqs[n].now
    ensures LuaAllows(max, reqs, n)
  {
    CounterIsLog(max, reqs, reqs[n].user, n);
  }
}
