/** The gateway's circuit breaker (services/gateway/src/discovery.rs) and its timed history.

    `Step` is the three-state machine with its stored counters. `PhaseAt` and `View` describe the same
    machine from the trace of calls alone, without counters: they only look at windows of the trace.
 */
module CircuitBreaking {
  import opened Common

  datatype CircuitState = Closed | Open | HalfOpen

  datatype Settings = Settings(failureThreshold: nat, successThreshold: nat, timeout: nat)

  datatype Breaker = Breaker(
    state: CircuitState, failureCount: nat, successCount: nat, lastFailure: Option<nat>)

  /** One call on the breaker; `now` is the clock reading the call takes. */
  datatype Event = Allow(now: nat) | Success | Failure(now: nat)

  const FRESH: Breaker := Breaker(Closed, 0, 0, None)

  const DEFAULT_SETTINGS: Settings := Settings(5, 3, 30)

  /** `Instant::elapsed`, which saturates at zero. */
  function Elapsed(since: nat, now: nat): (r: nat)
    ensures since <= now ==> since + r == now
    ensures now < since ==> r == 0
  {
    if since <= now then now - since else 0
  }

  predicate Allowed(cfg: Settings, b: Breaker, now: nat) {
    b.state == Open && b.lastFailure.Some? ==> Elapsed(b.lastFailure.value, now) >= cfg.timeout
  }

  function Step(cfg: Settings, b: Breaker, e: Event): Breaker {
    match e
    case Allow(now) =>
      if b.state == Open && b.lastFailure.Some? && Allowed(cfg, b, now)
      then b.(state := HalfOpen, successCount := 0)
      else b
    case Success =>
      (match b.state
       case Closed => b.(failureCount := 0)
       case HalfOpen =>
         if b.successCount + 1 >= cfg.successThreshold
         then b.(state := Closed, failureCount := 0, successCount := 0)
         else b.(successCount := b.successCount + 1)
       case Open => b)
    case Failure(now) =>
      var counted := b.(failureCount := b.failureCount + 1, lastFailure := Some(now));
      match b.state
      case Closed => if counted.failureCount >= cfg.failureThreshold then counted.(state := Open) else counted
      case HalfOpen => counted.(state := Open)
      case Open => counted
  }

  /** The breaker object itself; every method is one `Step` of its abstract value. */
  class CircuitBreaker {
    var state: CircuitState
    var failureCount: nat
    var successCount: nat
    var lastFailure: Option<nat>
    const settings: Settings

    constructor (settings: Settings)
      ensures Value() == FRESH && this.settings == settings
    {
      this.settings := settings;
      state, failureCount, successCount, lastFailure := Closed, 0, 0, None;
    }

    ghost function Value(): Breaker
      reads this
    {
      Breaker(state, failureCount, successCount, lastFailure)
    }

    method AllowRequest(now: nat) returns (ok: bool)
      modifies this
      ensures ok == Allowed(settings, old(Value()), now)
      ensures Value() == Step(settings, old(Value()), Allow(now))
    {
      match state
      case Closed => ok := true;
      case Open =>
        if lastFailure.Some? {
          if Elapsed(lastFailure.value, now) >= settings.timeout {
            state := HalfOpen;
            successCount := 0;
            ok := true;
          } else {
            ok := false;
          }
        } else {
          ok := true;
        }
      case HalfOpen => ok := true;
    }

    method RecordSuccess()
      modifies this
      ensures Value() == Step(settings, old(Value()), Success)
    {
      match state
      case Closed => failureCount := 0;
      case HalfOpen =>
        successCount := successCount + 1;
        if successCount >= settings.successThreshold {
          state := Closed;
          failureCount := 0;
          successCount := 0;
        }
      case Open =>
    }

    method RecordFailure(now: nat)
      modifies this
      ensures Value() == Step(settings, old(Value()), Failure(now))
    {
      failureCount := failureCount + 1;
      lastFailure := Some(now);
      match state
      case Closed =>
        if failureCount >= settings.failureThreshold {
          state := Open;
        }
      case HalfOpen => state := Open;
      case Open =>
    }
  }

  /** The breaker after the first `n` calls of the trace. */
  function At(cfg: Settings, tr: seq<Event>, n: nat): Breaker
    requires n <= |tr|
  {
    if n == 0 then FRESH else Step(cfg, At(cfg, tr, n - 1), tr[n - 1])
  }

  // ---------- the history, read off the trace alone ----------

  ghost function Failures(tr: seq<Event>, lo: nat, hi: nat): nat
    requires hi <= |tr|
  {
    if hi <= lo then 0 else Failures(tr, lo, hi - 1) + if tr[hi - 1].Failure? then 1 else 0
  }

  ghost function Successes(tr: seq<Event>, lo: nat, hi: nat): nat
    requires hi <= |tr|
  {
    if hi <= lo then 0 else Successes(tr, lo, hi - 1) + if tr[hi - 1].Success? then 1 else 0
  }

  /** Failures in the window since the latest success in it. */
  ghost function Streak(tr: seq<Event>, lo: nat, hi: nat): nat
    requires hi <= |tr|
  {
    if hi <= lo || tr[hi - 1].Success? then 0
    else Streak(tr, lo, hi - 1) + if tr[hi - 1].Failure? then 1 else 0
  }

  ghost predicate LatestFailure(tr: seq<Event>, n: nat, i: nat)
    requires n <= |tr|
  {
    i < n && tr[i].Failure? && forall j :: i < j < n ==> !tr[j].Failure?
  }

  ghost function LastFailure(tr: seq<Event>, n: nat): Option<nat>
    requires n <= |tr|
  {
    if n == 0 then None
    else if tr[n - 1].Failure? then Some(tr[n - 1].now)
    else LastFailure(tr, n - 1)
  }

  lemma {:induction false} LastFailureIsLatest(tr: seq<Event>, n: nat)
    requires n <= |tr|
    ensures LastFailure(tr, n).None? ==> forall i :: 0 <= i < n ==> !tr[i].Failure?
    ensures LastFailure(tr, n).Some? ==> exists i: nat :: LatestFailure(tr, n, i) && tr[i].now == LastFailure(tr, n).value
  {
    if n > 0 {
      if tr[n - 1].Failure? {
        assert LatestFailure(tr, n, n - 1);
      } else {
        LastFailureIsLatest(tr, n - 1);
        if LastFailure(tr, n).Some? {
          var i: nat :| LatestFailure(tr, n - 1, i) && tr[i].now == LastFailure(tr, n - 1).value;
          assert LatestFailure(tr, n, i);
        }
      }
    }
  }

  /** Where the breaker stands, by positions in the trace: `since` is where it last closed, `tripped` where
      it then first opened, `probe` where it last half-opened, and `ended` where that probe failed. */
  datatype Phase =
    | ClosedSince(since: nat)
    | OpenSince(since: nat, tripped: nat, probe: nat, ended: nat)
    | HalfOpenSince(since: nat, tripped: nat, probe: nat)

  ghost function PhaseAt(cfg: Settings, tr: seq<Event>, n: nat): Phase
    requires n <= |tr|
  {
    if n == 0 then ClosedSince(0) else
    var p := PhaseAt(cfg, tr, n - 1);
    match tr[n - 1]
    case Allow(now) =>
      var last := LastFailure(tr, n - 1);
      if p.OpenSince? && last.Some? && Elapsed(last.value, now) >= cfg.timeout
      then HalfOpenSince(p.since, p.tripped, n) else p
    case Success =>
      if p.HalfOpenSince? && Successes(tr, p.probe, n) >= cfg.successThreshold then ClosedSince(n) else p
    case Failure(_) =>
      match p
      case ClosedSince(c) => if Streak(tr, c, n) >= cfg.failureThreshold then OpenSince(c, n, n, n) else p
      case OpenSince(_, _, _, _) => p
      case HalfOpenSince(c, o, h) => OpenSince(c, o, h, n)
  }

  /** The stored fields, recomputed from the phase and windows of the trace. */
  ghost function View(cfg: Settings, tr: seq<Event>, n: nat): Breaker
    requires n <= |tr|
  {
    match PhaseAt(cfg, tr, n)
    case ClosedSince(c) => Breaker(Closed, Streak(tr, c, n), 0, LastFailure(tr, n))
    case OpenSince(c, o, h, e) =>
      if o <= n && e <= n
      then Breaker(Open, Streak(tr, c, o) + Failures(tr, o, n), Successes(tr, h, e), LastFailure(tr, n))
      else FRESH
    case HalfOpenSince(c, o, h) =>
      if o <= n
      then Breaker(HalfOpen, Streak(tr, c, o) + Failures(tr, o, n), Successes(tr, h, n), LastFailure(tr, n))
      else FRESH
  }

  ghost predicate PhaseOrdered(cfg: Settings, tr: seq<Event>, n: nat)
    requires n <= |tr|
  {
    match PhaseAt(cfg, tr, n)
    case ClosedSince(c) => c <= n
    case OpenSince(c, o, h, e) => c < o <= h <= e <= n && LastFailure(tr, n).Some?
    case HalfOpenSince(c, o, h) => c < o < h <= n && LastFailure(tr, n).Some?
  }

  lemma {:induction false} PhaseIsOrdered(cfg: Settings, tr: seq<Event>, n: nat)
    requires n <= |tr|
    ensures PhaseOrdered(cfg, tr, n)
  {
    if n > 0 {
      PhaseIsOrdered(cfg, tr, n - 1);
    }
  }

  lemma FailureFollowsHistory(cfg: Settings, tr: seq<Event>, n: nat)
    requires 0 < n <= |tr| && tr[n - 1].Failure?
    requires PhaseOrdered(cfg, tr, n - 1) && At(cfg, tr, n - 1) == View(cfg, tr, n - 1)
    ensures At(cfg, tr, n) == View(cfg, tr, n)
  {}

  lemma QuietFollowsHistory(cfg: Settings, tr: seq<Event>, n: nat)
    requires 0 < n <= |tr| && !tr[n - 1].Failure?
    requires PhaseOrdered(cfg, tr, n - 1) && At(cfg, tr, n - 1) == View(cfg, tr, n - 1)
    ensures At(cfg, tr, n) == View(cfg, tr, n)
  {}

  /** The stored breaker is exactly what the history says, at every point of every trace. */
  lemma {:induction false} RefinesHistory(cfg: Settings, tr: seq<Event>, n: nat)
    requires n <= |tr|
    ensures PhaseOrdered(cfg, tr, n)
    ensures At(cfg, tr, n) == View(cfg, tr, n)
  {
    PhaseIsOrdered(cfg, tr, n);
    if n > 0 {
      RefinesHistory(cfg, tr, n - 1);
      if tr[n - 1].Failure? {
        FailureFollowsHistory(cfg, tr, n);
      } else {
        QuietFollowsHistory(cfg, tr, n);
      }
    }
  }

  // ---------- exactly when each transition happens ----------

  ghost predicate Throughout(cfg: Settings, tr: seq<Event>, lo: nat, hi: nat, st: CircuitState)
    requires hi <= |tr|
  {
    forall i :: lo <= i <= hi ==> At(cfg, tr, i).state == st
  }

  ghost predicate NoSuccess(tr: seq<Event>, lo: nat, hi: nat)
    requires hi <= |tr|
  {
    forall i :: lo <= i < hi ==> !tr[i].Success?
  }

  ghost predicate NoFailure(tr: seq<Event>, lo: nat, hi: nat)
    requires hi <= |tr|
  {
    forall i :: lo <= i < hi ==> !tr[i].Failure?
  }

  /** While the state does not change, neither does the phase's start. */
  lemma {:induction false} SameClosedPhase(cfg: Settings, tr: seq<Event>, lo: nat, hi: nat)
    requires lo <= hi <= |tr| && Throughout(cfg, tr, lo, hi, Closed)
    ensures PhaseAt(cfg, tr, hi).ClosedSince? && PhaseAt(cfg, tr, hi).since <= lo
    ensures PhaseAt(cfg, tr, lo) == PhaseAt(cfg, tr, hi)
    decreases hi - lo
  {
    RefinesHistory(cfg, tr, hi);
    assert At(cfg, tr, hi).state == Closed;
    if lo < hi {
      SameClosedPhase(cfg, tr, lo, hi - 1);
    }
  }

  lemma {:induction false} SameProbe(cfg: Settings, tr: seq<Event>, lo: nat, hi: nat)
    requires lo <= hi <= |tr| && Throughout(cfg, tr, lo, hi, HalfOpen)
    ensures PhaseAt(cfg, tr, hi).HalfOpenSince? && PhaseAt(cfg, tr, lo) == PhaseAt(cfg, tr, hi)
    ensures PhaseAt(cfg, tr, hi).probe <= lo
    decreases hi - lo
  {
    RefinesHistory(cfg, tr, hi);
    assert At(cfg, tr, hi).state == HalfOpen;
    if lo < hi {
      SameProbe(cfg, tr, lo, hi - 1);
    }
  }

  lemma {:induction false} ClosedSinceThen(cfg: Settings, tr: seq<Event>, n: nat)
    requires n <= |tr| && At(cfg, tr, n).state == Closed
    ensures var p := PhaseAt(cfg, tr, n); p.ClosedSince? && p.since <= n && Throughout(cfg, tr, p.since, n, Closed)
  {
    RefinesHistory(cfg, tr, n);
    var c := PhaseAt(cfg, tr, n).since;
    if c < n {
      RefinesHistory(cfg, tr, n - 1);
      ClosedSinceThen(cfg, tr, n - 1);
    }
  }

  lemma {:induction false} HalfOpenSinceThen(cfg: Settings, tr: seq<Event>, n: nat)
    requires n <= |tr| && At(cfg, tr, n).state == HalfOpen
    ensures var p := PhaseAt(cfg, tr, n);
            && p.HalfOpenSince? && 0 < p.probe <= n && Throughout(cfg, tr, p.probe, n, HalfOpen)
            && At(cfg, tr, p.probe - 1).state == Open
  {
    RefinesHistory(cfg, tr, n);
    RefinesHistory(cfg, tr, n - 1);
    var h := PhaseAt(cfg, tr, n).probe;
    if h < n {
      HalfOpenSinceThen(cfg, tr, n - 1);
    }
  }

  /** The streak is the number of failures in some success-free window, and no such window has more. */
  lemma {:induction false} StreakIsWidestWindow(tr: seq<Event>, c: nat, n: nat)
    requires c <= n <= |tr|
    ensures exists lo: nat :: c <= lo <= n && NoSuccess(tr, lo, n) && Failures(tr, lo, n) == Streak(tr, c, n)
    ensures forall lo: nat :: c <= lo <= n && NoSuccess(tr, lo, n) ==> Failures(tr, lo, n) <= Streak(tr, c, n)
  {
    if n == c {
      assert NoSuccess(tr, n, n) && Failures(tr, n, n) == 0;
    } else {
      StreakIsWidestWindow(tr, c, n - 1);
      if tr[n - 1].Success? {
        assert NoSuccess(tr, n, n) && Failures(tr, n, n) == 0;
        forall lo: nat | c <= lo <= n && NoSuccess(tr, lo, n) ensures Failures(tr, lo, n) == 0 {
          assert lo == n;
        }
      } else {
        var w: nat :| c <= w <= n - 1 && NoSuccess(tr, w, n - 1) && Failures(tr, w, n - 1) == Streak(tr, c, n - 1);
        assert NoSuccess(tr, w, n);
        forall lo: nat | c <= lo <= n && NoSuccess(tr, lo, n) ensures Failures(tr, lo, n) <= Streak(tr, c, n) {
          if lo < n {
            assert NoSuccess(tr, lo, n - 1);
          }
        }
      }
    }
  }

  ghost predicate TripWindow(cfg: Settings, tr: seq<Event>, lo: nat, n: nat)
    requires n < |tr|
  {
    && lo <= n && Throughout(cfg, tr, lo, n, Closed) && NoSuccess(tr, lo, n + 1)
    && Failures(tr, lo, n + 1) == Max(1, cfg.failureThreshold)
  }

  /** A closed breaker opens exactly when the call is the failure that completes `failureThreshold` failures
      with no success between them, all while closed. A threshold of zero acts as one. */
  lemma OpensExactly(cfg: Settings, tr: seq<Event>, n: nat)
    requires n < |tr| && At(cfg, tr, n).state == Closed
    ensures At(cfg, tr, n + 1).state in {Closed, Open}
    ensures At(cfg, tr, n + 1).state == Open <==> tr[n].Failure? && exists lo: nat :: TripWindow(cfg, tr, lo, n)
  {
    ClosedSinceThen(cfg, tr, n);
    ClosedCounters(cfg, tr, n);
    RefinesHistory(cfg, tr, n);
    RefinesHistory(cfg, tr, n + 1);
    var c := PhaseAt(cfg, tr, n).since;
    StreakIsWidestWindow(tr, c, n + 1);
    if At(cfg, tr, n + 1).state == Open {
      var lo: nat :| c <= lo <= n + 1 && NoSuccess(tr, lo, n + 1) && Failures(tr, lo, n + 1) == Streak(tr, c, n + 1);
      assert TripWindow(cfg, tr, lo, n);
    }
    if tr[n].Failure? && exists lo: nat :: TripWindow(cfg, tr, lo, n) {
      var lo: nat :| TripWindow(cfg, tr, lo, n);
      SameClosedPhase(cfg, tr, lo, n);
    }
  }

  /** The clock has come to `timeout` after the reading `since`; a timeout of zero has always passed. */
  predicate CooledDown(cfg: Settings, since: nat, now: nat) {
    since + cfg.timeout <= now || cfg.timeout == 0
  }

  /** An open breaker half-opens exactly at a request whose clock reading is at least `timeout` after that of the latest
      recorded failure, late failures recorded while it was open included; that is also exactly when it admits. */
  lemma HalfOpensExactly(cfg: Settings, tr: seq<Event>, n: nat)
    requires n < |tr| && At(cfg, tr, n).state == Open
    ensures At(cfg, tr, n + 1).state in {Open, HalfOpen}
    ensures At(cfg, tr, n + 1).state == HalfOpen <==>
            tr[n].Allow? && exists i: nat :: LatestFailure(tr, n, i) && CooledDown(cfg, tr[i].now, tr[n].now)
    ensures tr[n].Allow? ==> (Allowed(cfg, At(cfg, tr, n), tr[n].now) <==> At(cfg, tr, n + 1).state == HalfOpen)
  {
    RefinesHistory(cfg, tr, n);
    LastFailureIsLatest(tr, n);
    var i: nat :| LatestFailure(tr, n, i) && Some(tr[i].now) == LastFailure(tr, n);
    forall j: nat | LatestFailure(tr, n, j) ensures j == i {}
  }

  /** A request is admitted exactly when the breaker is not open or the clock has come to `timeout` after the latest
      recorded failure, and refused exactly when it is open and the clock has not come there. */
  lemma AdmitsExactly(cfg: Settings, tr: seq<Event>, n: nat, now: nat)
    requires n <= |tr|
    ensures Allowed(cfg, At(cfg, tr, n), now) <==>
            At(cfg, tr, n).state != Open || exists i: nat :: LatestFailure(tr, n, i) && CooledDown(cfg, tr[i].now, now)
    ensures !Allowed(cfg, At(cfg, tr, n), now) <==>
            && At(cfg, tr, n).state == Open
            && exists i: nat :: LatestFailure(tr, n, i) && now < tr[i].now + cfg.timeout && cfg.timeout > 0
  {
    if At(cfg, tr, n).state == Open {
      RefinesHistory(cfg, tr, n);
      LastFailureIsLatest(tr, n);
      var i: nat :| LatestFailure(tr, n, i) && Some(tr[i].now) == LastFailure(tr, n);
      forall j: nat | LatestFailure(tr, n, j) ensures j == i {}
    }
  }

  ghost predicate ProbeWindow(cfg: Settings, tr: seq<Event>, h: nat, n: nat)
    requires n < |tr|
  {
    && 0 < h <= n && At(cfg, tr, h - 1).state == Open && Throughout(cfg, tr, h, n, HalfOpen)
    && NoFailure(tr, h, n + 1) && Successes(tr, h, n + 1) == Max(1, cfg.successThreshold)
  }

  /** A half-open breaker closes exactly when the call is the success that completes `successThreshold`
      successes since it half-opened, with no failure between; any failure opens it again. */
  lemma ClosesExactly(cfg: Settings, tr: seq<Event>, n: nat)
    requires n < |tr| && At(cfg, tr, n).state == HalfOpen
    ensures At(cfg, tr, n + 1).state == Open <==> tr[n].Failure?
    ensures At(cfg, tr, n + 1).state == Closed <==> tr[n].Success? && exists h: nat :: ProbeWindow(cfg, tr, h, n)
  {
    HalfOpenSinceThen(cfg, tr, n);
    ClosedCounters(cfg, tr, n);
    RefinesHistory(cfg, tr, n);
    RefinesHistory(cfg, tr, n + 1);
    var h := PhaseAt(cfg, tr, n).probe;
    forall i | h <= i < n ensures !tr[i].Failure? {
      assert At(cfg, tr, i).state == HalfOpen && At(cfg, tr, i + 1).state == HalfOpen;
    }
    if At(cfg, tr, n + 1).state == Closed {
      assert ProbeWindow(cfg, tr, h, n);
    }
    if tr[n].Success? && exists k: nat :: ProbeWindow(cfg, tr, k, n) {
      var k: nat :| ProbeWindow(cfg, tr, k, n);
      SameProbe(cfg, tr, k, n);
      assert k == h;
    }
  }

  /** The counters never reach their thresholds in the states that test them, and never exceed the number of
      calls made, so 32-bit counters cannot wrap on a trace shorter than their range. */
  lemma {:induction false} ClosedCounters(cfg: Settings, tr: seq<Event>, n: nat)
    requires n <= |tr|
    ensures var b := At(cfg, tr, n);
            && (b.state == Closed ==> b.failureCount < Max(1, cfg.failureThreshold) && b.successCount == 0)
            && (b.state == HalfOpen ==> b.successCount < Max(1, cfg.successThreshold))
            && (b.state != Closed ==> b.lastFailure.Some?)
            && b.failureCount <= n && b.successCount <= n
  {
    if n > 0 {
      ClosedCounters(cfg, tr, n - 1);
    }
  }

  /** With the default settings the fifth failure in a row opens a breaker, and no earlier one does. */
  lemma {:induction false} FiveFailuresOpen(tr: seq<Event>, n: nat)
    requires n <= |tr| && forall i :: 0 <= i < n ==> tr[i].Failure?
    ensures At(DEFAULT_SETTINGS, tr, n).state == if n < 5 then Closed else Open
    ensures n < 5 ==> At(DEFAULT_SETTINGS, tr, n).failureCount == n
  {
    if n > 0 {
      FiveFailuresOpen(tr, n - 1);
    }
  }

  /** And the third success in a row closes it again once it has half-opened. */
  lemma {:induction false} ThreeSuccessesClose(tr: seq<Event>, h: nat, n: nat)
    requires 0 < h <= n <= |tr| && forall i :: h <= i < n ==> tr[i].Success?
    requires At(DEFAULT_SETTINGS, tr, h - 1).state == Open && At(DEFAULT_SETTINGS, tr, h).state == HalfOpen
    ensures At(DEFAULT_SETTINGS, tr, n).state == if n < h + 3 then HalfOpen else Closed
    ensures n < h + 3 ==> At(DEFAULT_SETTINGS, tr, n).successCount == n - h
  {
    if h < n {
      ThreeSuccessesClose(tr, h, n - 1);
    }
  }

  ghost predicate Timed(tr: seq<Event>) {
    forall i, j :: 0 <= i < j < |tr| && !tr[i].Success? && !tr[j].Success? ==> tr[i].now <= tr[j].now
  }

  /** Once a failure leaves the breaker open, every request within `timeout` of that failure is refused. */
  lemma {:induction false} CoolDown(cfg: Settings, tr: seq<Event>, i: nat, j: nat)
    requires Timed(tr) && i < j < |tr|
    requires tr[i].Failure? && At(cfg, tr, i + 1).state == Open
    requires !tr[j].Success? && tr[j].now < tr[i].now + cfg.timeout
    ensures Throughout(cfg, tr, i + 1, j, Open)
    ensures !Allowed(cfg, At(cfg, tr, j), tr[j].now)
  {
    StaysOpen(cfg, tr, i, j, tr[j].now);
    RefinesHistory(cfg, tr, j);
    LastFailureIsLatest(tr, j);
    var k: nat :| LatestFailure(tr, j, k) && Some(tr[k].now) == LastFailure(tr, j);
    assert tr[i].now <= tr[k].now <= tr[j].now;
  }

  lemma {:induction false} StaysOpen(cfg: Settings, tr: seq<Event>, i: nat, j: nat, now: nat)
    requires Timed(tr) && i < j <= |tr|
    requires tr[i].Failure? && At(cfg, tr, i + 1).state == Open
    requires forall k :: i <= k < j && !tr[k].Success? ==> tr[k].now <= now
    requires now < tr[i].now + cfg.timeout
    ensures Throughout(cfg, tr, i + 1, j, Open)
    decreases j
  {
    if i + 1 < j {
      StaysOpen(cfg, tr, i, j - 1, now);
      HalfOpensExactly(cfg, tr, j - 1);
      if tr[j - 1].Allow? {
        forall k: nat | LatestFailure(tr, j - 1, k) ensures tr[j - 1].now < tr[k].now + cfg.timeout {
          assert i <= k;
          assert i < k ==> tr[i].now <= tr[k].now;
        }
      }
    }
  }
}
