/** Request accounting in the gateway (services/gateway/src/state.rs, services/gateway/src/middleware.rs): any number
    of requests run at once, and each atomic counter update and each registry call is a step of its own.
 */
module GatewayMetrics {
  import opened Common
  import CB = CircuitBreaking
  import opened LoadBalance
  import opened Registry
  import opened RegistryRuns

  datatype Counters = Counters(total: nat, active: nat, duration: nat, errors: nat)

  const ZERO: Counters := Counters(0, 0, 0, 0)

  /** `fetch_sub(1)` on 64 bits wraps below zero. */
  function Minus(x: nat): nat {
    if x == 0 then WORD - 1 else x - 1
  }

  class Metrics {
    var totalRequests: nat
    var activeRequests: nat
    var totalDuration: nat
    var errorCount: nat

    constructor ()
      ensures Value() == ZERO
    {
      totalRequests, activeRequests, totalDuration, errorCount := 0, 0, 0, 0;
    }

    ghost function Value(): Counters
      reads this
    {
      Counters(totalRequests, activeRequests, totalDuration, errorCount)
    }

    method IncrementRequests()
      modifies this
      ensures Value() == AddActive(AddTotal(old(Value())))
    {
      totalRequests := totalRequests + 1;
      activeRequests := activeRequests + 1;
    }

    method CompleteRequest(ms: nat)
      modifies this
      ensures Value() == AddDuration(SubActive(old(Value())), ms)
    {
      activeRequests := if activeRequests == 0 then WORD - 1 else activeRequests - 1;
      totalDuration := totalDuration + ms;
    }

    method IncrementErrors()
      modifies this
      ensures Value() == AddError(old(Value()))
    {
      errorCount := errorCount + 1;
    }

    /** `request_logging` with nothing else running: one request, which takes `ms` and answers `status`. */
    method LogRequest(ms: nat, status: nat)
      modifies this
      ensures Value() == old(Value()).(total := old(Value()).total + 1, duration := old(Value()).duration + ms,
                                       errors := old(Value()).errors + if status / 100 in {4, 5} then 1 else 0)
    {
      IncrementRequests();
      CompleteRequest(ms);
      if 500 <= status < 600 || 400 <= status < 500 {
        IncrementErrors();
      }
    }
  }

  predicate IsError(status: nat) {
    400 <= status < 600
  }

  function AddTotal(c: Counters): Counters { c.(total := c.total + 1) }

  function AddActive(c: Counters): Counters { c.(active := c.active + 1) }

  function SubActive(c: Counters): Counters { c.(active := Minus(c.active)) }

  function AddDuration(c: Counters, ms: nat): Counters { c.(duration := c.duration + ms) }

  function AddError(c: Counters): Counters { c.(errors := c.errors + 1) }

  // ---------- one proxied request ----------

  /** How sending to an instance ends; `Got` when a response came back, whatever its status. */
  datatype SendResult = Got(status: nat, bodyRead: bool) | TimedOut | NoConnection | OtherError

  datatype ProxyError = FromRegistry(error: GatewayError) | Timeout | CannotConnect | Upstream

  /** The registry calls of `proxy_request`: the choice of an instance and, once the send has returned, one record. */
  function ProxyCalls(strategy: Strategy, st: State, service: string, chosenAt: nat, send: SendResult, sentAt: nat,
                      ms: nat): seq<Op>
  {
    if Answer(strategy, st, service, chosenAt).Err? then [Get(service, chosenAt)]
    else [Get(service, chosenAt), if send.Got? then Succeed(service, ms) else Fail(service, sentAt)]
  }

  function DoAll(strategy: Strategy, st: State, calls: seq<Op>): State
    decreases |calls|
  {
    if calls == [] then st else DoAll(strategy, Do(strategy, st, calls[0]), calls[1..])
  }

  lemma DoTwo(strategy: Strategy, st: State, a: Op, b: Op)
    ensures DoAll(strategy, st, [a]) == Do(strategy, st, a)
    ensures DoAll(strategy, st, [a, b]) == Do(strategy, Do(strategy, st, a), b)
  {
    assert [a][1..] == [] && [a, b][1..] == [b] && [b][1..] == [];
    assert DoAll(strategy, st, [a]) == DoAll(strategy, Do(strategy, st, a), []);
    var next := Do(strategy, st, a);
    assert DoAll(strategy, st, [a, b]) == DoAll(strategy, next, [b]) == DoAll(strategy, Do(strategy, next, b), []);
  }

  class AppState {
    const metrics: Metrics
    const serviceRegistry: ServiceRegistry

    constructor (metrics: Metrics, registry: ServiceRegistry)
      ensures this.metrics == metrics && serviceRegistry == registry
    {
      this.metrics, this.serviceRegistry := metrics, registry;
    }

    method ProxyRequest(service: string, chosenAt: nat, send: SendResult, sentAt: nat, ms: nat)
      returns (r: Result<nat, ProxyError>)
      requires serviceRegistry.Valid()
      modifies serviceRegistry, serviceRegistry.breakers.Values
      ensures serviceRegistry.Valid()
      ensures var strategy, before := serviceRegistry.strategy, old(serviceRegistry.Value());
              && serviceRegistry.Value() ==
                 DoAll(strategy, before, ProxyCalls(strategy, before, service, chosenAt, send, sentAt, ms))
              && (r.Ok? <==> Answer(strategy, before, service, chosenAt).Ok? && send.Got? && send.bodyRead)
              && (r.Ok? ==> r.value == send.status)
              && (Answer(strategy, before, service, chosenAt).Err? ==>
                  r == Err(FromRegistry(Answer(strategy, before, service, chosenAt).error)))
              && (Answer(strategy, before, service, chosenAt).Ok? ==>
                  && (send.TimedOut? ==> r == Err(Timeout))
                  && (send.NoConnection? ==> r == Err(CannotConnect))
                  && (send.OtherError? || (send.Got? && !send.bodyRead) ==> r == Err(Upstream)))
    {
      ghost var strategy, before := serviceRegistry.strategy, serviceRegistry.Value();
      var instance := serviceRegistry.GetInstance(service, chosenAt);
      DoTwo(strategy, before, Get(service, chosenAt), if send.Got? then Succeed(service, ms) else Fail(service, sentAt));
      match instance
      case Err(error) => r := Err(FromRegistry(error));
      case Ok(_) =>
        match send
        case Got(status, bodyRead) =>
          serviceRegistry.RecordSuccess(service, ms);
          r := if bodyRead then Ok(status) else Err(Upstream);
        case TimedOut =>
          serviceRegistry.RecordFailure(service, sentAt);
          r := Err(Timeout);
        case NoConnection =>
          serviceRegistry.RecordFailure(service, sentAt);
          r := Err(CannotConnect);
        case OtherError =>
          serviceRegistry.RecordFailure(service, sentAt);
          r := Err(Upstream);
    }
  }

  // ---------- tasks ----------

  /** Whether a request was sent to a service, and whether the send returned a response. */
  datatype Send = NotSent | Sent(service: string, ok: bool)

  /** Where a request stands: what it does next is its next atomic step. */
  datatype Stage =
    | Arrived
    | Counted
    | Active
    | Sending(service: string)
    | Returned(service: string, ok: bool)
    | Recorded(service: string, ok: bool)
    | Answered(send: Send, status: nat)
    | Left(send: Send, status: nat)
    | Timed(send: Send, status: nat, ms: nat)
    | Done(send: Send, status: nat, ms: nat)

  /** What the environment decides in a step: where the handler proxies to, the clock, whether a send returns a
      response, the status of the answer, and the elapsed time. */
  datatype Input = Input(proxy: Option<string>, now: nat, ok: bool, status: nat, ms: nat)

  datatype Gateway = Gateway(tasks: seq<Stage>, counters: Counters, calls: seq<Op>)

  /** A new request, the next step of one, or a registry call from elsewhere: a registration, a health report, a choice
      of an instance. */
  datatype Action = Arrive | Advance(task: nat, input: Input) | Elsewhere(call: Op)

  /** The registry the calls so far have produced. */
  function RegistryOf(strategy: Strategy, g: Gateway): State {
    Run(strategy, g.calls, |g.calls|)
  }

  /** The status of an error answer made by the gateway. */
  function ErrorStatus(status: nat): (r: nat)
    ensures IsError(r)
  {
    if IsError(status) then status else 502
  }

  function NextStage(strategy: Strategy, g: Gateway, st: Stage, input: Input): Stage {
    match st
    case Arrived => Counted
    case Counted => Active
    case Active =>
      (match input.proxy
       case None => Answered(NotSent, input.status)
       case Some(service) =>
         if Answer(strategy, RegistryOf(strategy, g), service, input.now).Ok? then Sending(service)
         else Answered(NotSent, ErrorStatus(input.status)))
    case Sending(service) => Returned(service, input.ok)
    case Returned(service, ok) => Recorded(service, ok)
    case Recorded(service, ok) => Answered(Sent(service, ok), if ok then input.status else ErrorStatus(input.status))
    case Answered(send, status) => Left(send, status)
    case Left(send, status) => Timed(send, status, input.ms)
    case Timed(send, status, ms) => Done(send, status, ms)
    case Done(_, _, _) => st
  }

  function NextCounters(c: Counters, st: Stage, input: Input): Counters {
    match st
    case Arrived => AddTotal(c)
    case Counted => AddActive(c)
    case Answered(_, _) => SubActive(c)
    case Left(_, _) => AddDuration(c, input.ms)
    case Timed(_, status, _) => if IsError(status) then AddError(c) else c
    case _ => c
  }

  function NextCalls(calls: seq<Op>, st: Stage, input: Input): seq<Op> {
    match st
    case Active => if input.proxy.Some? then calls + [Get(input.proxy.value, input.now)] else calls
    case Returned(service, ok) => calls + [if ok then Succeed(service, input.ms) else Fail(service, input.now)]
    case _ => calls
  }

  function Act(strategy: Strategy, g: Gateway, a: Action): Gateway {
    match a
    case Arrive => g.(tasks := g.tasks + [Arrived])
    case Advance(t, input) =>
      if t >= |g.tasks| then g
      else
        var st := g.tasks[t];
        Gateway(g.tasks[t := NextStage(strategy, g, st, input)], NextCounters(g.counters, st, input),
                NextCalls(g.calls, st, input))
    case Elsewhere(call) => if call.Succeed? || call.Fail? then g else g.(calls := g.calls + [call])
  }

  function Interleave(strategy: Strategy, g: Gateway, actions: seq<Action>): Gateway {
    if actions == [] then g
    else Act(strategy, Interleave(strategy, g, actions[..|actions| - 1]), actions[|actions| - 1])
  }

  /** The steps of a task whose handler proxies to `service`: the choice of an instance, the return of the send, its
      record, and the answer. */
  function ProxySteps(service: string, chosenAt: nat, ok: bool, sentAt: nat, ms: nat, status: nat): seq<Action> {
    var input := Input(Some(service), sentAt, ok, status, ms);
    [Advance(0, input.(now := chosenAt)), Advance(0, input), Advance(0, input), Advance(0, input)]
  }

  /** The steps of a task make the registry calls of `ProxyRequest`: one choice, and one record once a send has
      returned. A response is answered with the status given, a failed send with one of an error. */
  lemma TaskMakesProxyCalls(strategy: Strategy, calls: seq<Op>, counters: Counters, service: string, chosenAt: nat,
                            send: SendResult, sentAt: nat, ms: nat, status: nat)
    ensures var g := Gateway([Active], counters, calls);
            var steps := ProxySteps(service, chosenAt, send.Got?, sentAt, ms, status);
            var made := ProxyCalls(strategy, RegistryOf(strategy, g), service, chosenAt, send, sentAt, ms);
            var chosen := Act(strategy, g, steps[0]);
            if chosen.tasks[0].Sending? then
              var recorded := Act(strategy, Act(strategy, chosen, steps[1]), steps[2]);
              var answered := Act(strategy, recorded, steps[3]);
              && |made| == 2 && recorded.calls == answered.calls == calls + made
              && answered.tasks[0].Answered? && answered.tasks[0].send == Sent(service, send.Got?)
              && (send.Got? ==> answered.tasks[0].status == status)
              && (!send.Got? ==> answered.tasks[0].status / 100 in {4, 5})
            else |made| == 1 && chosen.calls == calls + made
  {
    hide RegistryOf, Answer, NextCounters, ErrorStatus;
    var g := Gateway([Active], counters, calls);
    var made := ProxyCalls(strategy, RegistryOf(strategy, g), service, chosenAt, send, sentAt, ms);
    if |made| == 2 {
      assert calls + made == calls + [made[0]] + [made[1]];
    }
  }

  // ---------- counting tasks ----------

  ghost function Count(tasks: seq<Stage>, p: Stage -> bool): nat {
    if tasks == [] then 0
    else Count(tasks[..|tasks| - 1], p) + if p(tasks[|tasks| - 1]) then 1 else 0
  }

  lemma {:induction false} CountUpdate(tasks: seq<Stage>, t: nat, st: Stage, p: Stage -> bool)
    requires t < |tasks|
    ensures Count(tasks[t := st], p) == Count(tasks, p) - (if p(tasks[t]) then 1 else 0) + if p(st) then 1 else 0
  {
    var n := |tasks| - 1;
    if t < n {
      CountUpdate(tasks[..n], t, st, p);
      assert tasks[t := st][..n] == tasks[..n][t := st];
    } else {
      assert tasks[t := st][..n] == tasks[..n];
    }
  }

  lemma CountAppend(tasks: seq<Stage>, st: Stage, p: Stage -> bool)
    ensures Count(tasks + [st], p) == Count(tasks, p) + if p(st) then 1 else 0
  {
    assert (tasks + [st])[..|tasks + [st]| - 1] == tasks;
  }

  lemma {:induction false} CountSums(tasks: seq<Stage>, p: Stage -> bool, q: Stage -> bool, r: Stage -> bool)
    requires forall st :: (if p(st) then 1 else 0) == (if q(st) then 1 else 0) + if r(st) then 1 else 0
    ensures Count(tasks, p) == Count(tasks, q) + Count(tasks, r)
  {
    if tasks != [] {
      CountSums(tasks[..|tasks| - 1], p, q, r);
    }
  }

  lemma {:induction false} CountAtMost(tasks: seq<Stage>, p: Stage -> bool, q: Stage -> bool)
    requires forall st :: p(st) ==> q(st)
    ensures Count(tasks, p) <= Count(tasks, q)
  {
    if tasks != [] {
      CountAtMost(tasks[..|tasks| - 1], p, q);
    }
  }

  lemma {:induction false} CountHas(tasks: seq<Stage>, t: nat, p: Stage -> bool)
    requires t < |tasks| && p(tasks[t])
    ensures Count(tasks, p) > 0
  {
    if t < |tasks| - 1 {
      CountHas(tasks[..|tasks| - 1], t, p);
    }
  }

  predicate WasCounted(st: Stage) { !st.Arrived? }

  predicate JustCounted(st: Stage) { st.Counted? }

  /** Between the increment and the decrement of `active_requests`. */
  predicate InFlight(st: Stage) {
    st.Active? || st.Sending? || st.Returned? || st.Recorded? || st.Answered?
  }

  predicate Completed(st: Stage) { st.Left? || st.Timed? || st.Done? }

  predicate CountedOrCompleted(st: Stage) { JustCounted(st) || Completed(st) }

  /** The answer is of the 4xx or the 5xx class. */
  predicate ErrorCounted(st: Stage) { st.Done? && st.status / 100 in {4, 5} }

  ghost function Elapsed(tasks: seq<Stage>): nat {
    if tasks == [] then 0
    else
      var last := tasks[|tasks| - 1];
      Elapsed(tasks[..|tasks| - 1]) + if last.Timed? || last.Done? then last.ms else 0
  }

  lemma {:induction false} ElapsedUpdate(tasks: seq<Stage>, t: nat, st: Stage)
    requires t < |tasks|
    ensures var ms := (s: Stage) => if s.Timed? || s.Done? then s.ms else 0;
            Elapsed(tasks[t := st]) == Elapsed(tasks) - ms(tasks[t]) + ms(st)
  {
    var n := |tasks| - 1;
    if t < n {
      ElapsedUpdate(tasks[..n], t, st);
      assert tasks[t := st][..n] == tasks[..n][t := st];
    } else {
      assert tasks[t := st][..n] == tasks[..n];
    }
  }

  // ---------- the counters are counts of tasks ----------

  /** Each counter is the number of requests at the stages it stands for. */
  ghost predicate Balanced(g: Gateway) {
    && g.counters.total == Count(g.tasks, WasCounted)
    && g.counters.active == Count(g.tasks, InFlight)
    && g.counters.errors == Count(g.tasks, ErrorCounted)
    && g.counters.duration == Elapsed(g.tasks)
  }

  lemma AdvanceKeepsBalance(strategy: Strategy, g: Gateway, t: nat, input: Input)
    requires Balanced(g) && t < |g.tasks|
    ensures Balanced(Act(strategy, g, Advance(t, input)))
  {
    var was, st := g.tasks[t], NextStage(strategy, g, g.tasks[t], input);
    CountUpdate(g.tasks, t, st, WasCounted);
    CountUpdate(g.tasks, t, st, InFlight);
    CountUpdate(g.tasks, t, st, ErrorCounted);
    ElapsedUpdate(g.tasks, t, st);
    if was.Answered? {
      CountHas(g.tasks, t, InFlight);
    }
    StageMoves(strategy, g, was, input);
  }

  /** How one step moves a task between the groups, and what it does to the counters. */
  lemma StageMoves(strategy: Strategy, g: Gateway, st: Stage, input: Input)
    ensures var st', c, c' := NextStage(strategy, g, st, input), g.counters, NextCounters(g.counters, st, input);
            && c'.total == c.total + (if !WasCounted(st) then 1 else 0) && WasCounted(st')
            && (InFlight(st') <==> st.Counted? || (InFlight(st) && !st.Answered?))
            && c'.active == (if st.Counted? then c.active + 1 else if st.Answered? then Minus(c.active) else c.active)
            && c'.errors == c.errors + (if ErrorCounted(st') && !ErrorCounted(st) then 1 else 0)
            && (ErrorCounted(st) ==> ErrorCounted(st'))
            && c'.duration == c.duration + (if st.Left? then input.ms else 0)
            && ((st'.Timed? || st'.Done?) <==> (st.Left? || st.Timed? || st.Done?))
            && (st'.Timed? || st'.Done? ==> st'.ms == if st.Left? then input.ms else st.ms)
  {}

  lemma ActKeepsBalance(strategy: Strategy, g: Gateway, a: Action)
    requires Balanced(g)
    ensures Balanced(Act(strategy, g, a))
  {
    match a
    case Arrive =>
      CountAppend(g.tasks, Arrived, WasCounted);
      CountAppend(g.tasks, Arrived, InFlight);
      CountAppend(g.tasks, Arrived, ErrorCounted);
      assert (g.tasks + [Arrived])[..|g.tasks|] == g.tasks;
    case Advance(t, input) =>
      if t < |g.tasks| {
        AdvanceKeepsBalance(strategy, g, t, input);
      }
    case Elsewhere(_) =>
  }

  function Start(services: seq<Op>): Gateway {
    Gateway([], ZERO, services)
  }

  /** In every interleaving, at every point. */
  lemma {:induction false} AlwaysBalanced(strategy: Strategy, services: seq<Op>, actions: seq<Action>)
    ensures Balanced(Interleave(strategy, Start(services), actions))
  {
    if actions != [] {
      AlwaysBalanced(strategy, services, actions[..|actions| - 1]);
      ActKeepsBalance(strategy, Interleave(strategy, Start(services), actions[..|actions| - 1]), actions[|actions| - 1]);
    }
  }

  /** `active_requests` is positive whenever a request is about to decrement it, so it never wraps. */
  lemma NeverUnderflows(strategy: Strategy, services: seq<Op>, actions: seq<Action>, t: nat)
    requires var g := Interleave(strategy, Start(services), actions); t < |g.tasks| && g.tasks[t].Answered?
    ensures Interleave(strategy, Start(services), actions).counters.active > 0
  {
    var g := Interleave(strategy, Start(services), actions);
    AlwaysBalanced(strategy, services, actions);
    CountHas(g.tasks, t, InFlight);
  }

  /** Conservation: every counted request is active, completed, or between its two increments; errors never
      exceed completions. */
  lemma Conservation(strategy: Strategy, services: seq<Op>, actions: seq<Action>)
    ensures var g := Interleave(strategy, Start(services), actions);
            && g.counters.total == g.counters.active + Count(g.tasks, Completed) + Count(g.tasks, JustCounted)
            && g.counters.errors <= Count(g.tasks, Completed)
            && g.counters.total <= |g.tasks|
  {
    var g := Interleave(strategy, Start(services), actions);
    AlwaysBalanced(strategy, services, actions);
    CountSums(g.tasks, WasCounted, InFlight, CountedOrCompleted);
    CountSums(g.tasks, CountedOrCompleted, Completed, JustCounted);
    CountAtMost(g.tasks, ErrorCounted, Completed);
    CountIsBounded(g.tasks, WasCounted);
  }

  lemma {:induction false} CountIsBounded(tasks: seq<Stage>, p: Stage -> bool)
    ensures Count(tasks, p) <= |tasks|
  {
    if tasks != [] {
      CountIsBounded(tasks[..|tasks| - 1], p);
    }
  }

  ghost predicate Quiescent(g: Gateway) {
    forall t :: 0 <= t < |g.tasks| ==> g.tasks[t].Done?
  }

  /** When all requests are done, nothing is active, all are counted, and the errors are exactly the error answers. */
  lemma QuietAccounts(strategy: Strategy, services: seq<Op>, actions: seq<Action>)
    requires Quiescent(Interleave(strategy, Start(services), actions))
    ensures var g := Interleave(strategy, Start(services), actions);
            && g.counters.active == 0 && g.counters.total == |g.tasks|
            && g.counters.errors == Count(g.tasks, ErrorCounted)
  {
    var g := Interleave(strategy, Start(services), actions);
    AlwaysBalanced(strategy, services, actions);
    AllDone(g.tasks);
  }

  lemma {:induction false} AllDone(tasks: seq<Stage>)
    requires forall t :: 0 <= t < |tasks| ==> tasks[t].Done?
    ensures Count(tasks, InFlight) == 0 && Count(tasks, WasCounted) == |tasks|
  {
    if tasks != [] {
      AllDone(tasks[..|tasks| - 1]);
    }
  }

  // ---------- what the breakers are told ----------

  predicate Records(op: Op, service: string, ok: bool) {
    op.name == service && if ok then op.Succeed? else op.Fail?
  }

  ghost function Recordings(calls: seq<Op>, service: string, ok: bool): nat {
    if calls == [] then 0
    else Recordings(calls[..|calls| - 1], service, ok) + if Records(calls[|calls| - 1], service, ok) then 1 else 0
  }

  /** A send to the service has returned this way and the registry has been told. */
  predicate HasTold(st: Stage, service: string, ok: bool) {
    match st
    case Recorded(s, k) => s == service && k == ok
    case Answered(send, _) => send == Sent(service, ok)
    case Left(send, _) => send == Sent(service, ok)
    case Timed(send, _, _) => send == Sent(service, ok)
    case Done(send, _, _) => send == Sent(service, ok)
    case _ => false
  }

  function Told(service: string, ok: bool): Stage -> bool {
    st => HasTold(st, service, ok)
  }

  lemma RecordingsAppend(calls: seq<Op>, op: Op, service: string, ok: bool)
    ensures Recordings(calls + [op], service, ok) ==
            Recordings(calls, service, ok) + if Records(op, service, ok) then 1 else 0
  {
    assert (calls + [op])[..|calls + [op]| - 1] == calls;
  }

  lemma ToldNext(strategy: Strategy, g: Gateway, st: Stage, input: Input, service: string, ok: bool)
    ensures HasTold(NextStage(strategy, g, st, input), service, ok) <==>
            HasTold(st, service, ok) || st == Returned(service, ok)
  {}

  lemma RecordingsNext(calls: seq<Op>, st: Stage, input: Input, service: string, ok: bool)
    ensures Recordings(NextCalls(calls, st, input), service, ok) ==
            Recordings(calls, service, ok) + if st == Returned(service, ok) then 1 else 0
  {
    if st.Active? && input.proxy.Some? {
      RecordingsAppend(calls, Get(input.proxy.value, input.now), service, ok);
    } else if st.Returned? {
      RecordingsAppend(calls, if st.ok then Succeed(st.service, input.ms) else Fail(st.service, input.now), service, ok);
    }
  }

  lemma ToldOnce(strategy: Strategy, g: Gateway, st: Stage, input: Input, service: string, ok: bool)
    ensures Recordings(NextCalls(g.calls, st, input), service, ok) - Recordings(g.calls, service, ok) ==
            (if HasTold(NextStage(strategy, g, st, input), service, ok) then 1 else 0) -
            if HasTold(st, service, ok) then 1 else 0
  {
    ToldNext(strategy, g, st, input, service, ok);
    RecordingsNext(g.calls, st, input, service, ok);
  }

  ghost predicate OneRecordEach(g: Gateway, service: string, ok: bool) {
    Recordings(g.calls, service, ok) == Count(g.tasks, Told(service, ok))
  }

  lemma OneRecordNext(strategy: Strategy, g: Gateway, a: Action, service: string, ok: bool)
    requires OneRecordEach(g, service, ok)
    ensures OneRecordEach(Act(strategy, g, a), service, ok)
  {
    match a
    case Arrive => CountAppend(g.tasks, Arrived, Told(service, ok));
    case Advance(t, input) =>
      if t < |g.tasks| {
        CountUpdate(g.tasks, t, NextStage(strategy, g, g.tasks[t], input), Told(service, ok));
        ToldOnce(strategy, g, g.tasks[t], input, service, ok);
      }
    case Elsewhere(call) => RecordingsAppend(g.calls, call, service, ok);
  }

  /** Every send that has returned and passed its record made exactly one record, of its own service and outcome,
      and nothing else made any. */
  lemma {:induction false} OneRecordPerSend(strategy: Strategy, services: seq<Op>, actions: seq<Action>,
                                            service: string, ok: bool)
    requires Recordings(services, service, ok) == 0
    ensures var g := Interleave(strategy, Start(services), actions);
            Recordings(g.calls, service, ok) == Count(g.tasks, Told(service, ok))
  {
    if actions != [] {
      var front := actions[..|actions| - 1];
      OneRecordPerSend(strategy, services, front, service, ok);
      OneRecordNext(strategy, Interleave(strategy, Start(services), front), actions[|actions| - 1], service, ok);
    }
  }

  /** An answer to a failed send is an error answer. */
  predicate FailedSendsAnswerErrors(st: Stage) {
    match st
    case Answered(send, status) => send.Sent? && !send.ok ==> IsError(status)
    case Left(send, status) => send.Sent? && !send.ok ==> IsError(status)
    case Timed(send, status, _) => send.Sent? && !send.ok ==> IsError(status)
    case Done(send, status, _) => send.Sent? && !send.ok ==> IsError(status)
    case _ => true
  }

  lemma {:induction false} FailuresAnswerErrors(strategy: Strategy, services: seq<Op>, actions: seq<Action>, t: nat)
    requires t < |Interleave(strategy, Start(services), actions).tasks|
    ensures FailedSendsAnswerErrors(Interleave(strategy, Start(services), actions).tasks[t])
  {
    if actions != [] {
      var g := Interleave(strategy, Start(services), actions[..|actions| - 1]);
      if t < |g.tasks| {
        FailuresAnswerErrors(strategy, services, actions[..|actions| - 1], t);
      }
    }
  }

  /** Every failure a breaker was told of is in the error count once all requests are done; the converse fails,
      since an error status from a service is a response and counts as a success. */
  lemma FailuresAreErrors(strategy: Strategy, services: seq<Op>, actions: seq<Action>, service: string)
    requires Recordings(services, service, false) == 0
    requires Quiescent(Interleave(strategy, Start(services), actions))
    ensures var g := Interleave(strategy, Start(services), actions);
            Recordings(g.calls, service, false) <= g.counters.errors
  {
    var g := Interleave(strategy, Start(services), actions);
    OneRecordPerSend(strategy, services, actions, service, false);
    AlwaysBalanced(strategy, services, actions);
    forall t | 0 <= t < |g.tasks| ensures FailedSendsAnswerErrors(g.tasks[t]) {
      FailuresAnswerErrors(strategy, services, actions, t);
    }
    FailedAreErrors(g.tasks, service);
  }

  lemma {:induction false} FailedAreErrors(tasks: seq<Stage>, service: string)
    requires forall t :: 0 <= t < |tasks| ==> tasks[t].Done? && FailedSendsAnswerErrors(tasks[t])
    ensures Count(tasks, Told(service, false)) <= Count(tasks, ErrorCounted)
  {
    if tasks != [] {
      FailedAreErrors(tasks[..|tasks| - 1], service);
    }
  }

  // ---------- down to the breaker ----------

  ghost function Outcomes(tr: seq<CB.Event>, ok: bool): nat {
    if tr == [] then 0
    else Outcomes(tr[..|tr| - 1], ok) + if (if ok then tr[|tr| - 1].Success? else tr[|tr| - 1].Failure?) then 1 else 0
  }

  lemma OutcomesAppend(tr: seq<CB.Event>, e: CB.Event, ok: bool)
    ensures Outcomes(tr + [e], ok) == Outcomes(tr, ok) + if (if ok then e.Success? else e.Failure?) then 1 else 0
  {
    assert (tr + [e])[..|tr + [e]| - 1] == tr;
  }

  lemma OutcomesNext(calls: seq<Op>, n: nat, service: string, ok: bool)
    requires 0 < n <= |calls| && (!Registered(calls, n - 1, service) ==> !Records(calls[n - 1], service, ok))
    ensures Outcomes(Calls(calls, n, service), ok) ==
            Outcomes(Calls(calls, n - 1, service), ok) + if Records(calls[n - 1], service, ok) then 1 else 0
  {
    hide Outcomes;
    var op, tr := calls[n - 1], Calls(calls, n - 1, service);
    if Call(op).Some? {
      OutcomesAppend(tr, Call(op).value, ok);
    }
  }

  lemma {:induction false} CallsAreRecordings(calls: seq<Op>, n: nat, service: string, ok: bool)
    requires n <= |calls|
    requires forall i :: 0 <= i < n && !Registered(calls, i, service) ==> !Records(calls[i], service, ok)
    ensures Outcomes(Calls(calls, n, service), ok) == Recordings(calls[..n], service, ok)
  {
    if n > 0 {
      CallsAreRecordings(calls, n - 1, service, ok);
      OutcomesNext(calls, n, service, ok);
      RecordingsAppend(calls[..n - 1], calls[n - 1], service, ok);
      assert calls[..n] == calls[..n - 1] + [calls[n - 1]];
    }
  }

  lemma {:induction false} CallsExtend(strategy: Strategy, services: seq<Op>, actions: seq<Action>)
    ensures services <= Interleave(strategy, Start(services), actions).calls
  {
    if actions != [] {
      CallsExtend(strategy, services, actions[..|actions| - 1]);
    }
  }

  lemma StaysRegistered(services: seq<Op>, calls: seq<Op>, n: nat, service: string)
    requires services <= calls && |services| <= n <= |calls| && Registered(services, |services|, service)
    ensures Registered(calls, n, service)
  {
    var i :| 0 <= i < |services| && services[i].Register? && services[i].name == service;
    assert calls[i] == services[i];
  }

  /** For a service registered before any request came, its breaker is the one whose history holds exactly one
      success or failure for every send that returned, in whatever order the requests were interleaved. */
  lemma BreakerHearsEverySend(strategy: Strategy, services: seq<Op>, actions: seq<Action>, service: string, ok: bool)
    requires forall i :: 0 <= i < |services| ==> services[i].Register?
    requires Registered(services, |services|, service)
    ensures var g := Interleave(strategy, Start(services), actions);
            var tr := Calls(g.calls, |g.calls|, service);
            && service in RegistryOf(strategy, g).breakers
            && RegistryOf(strategy, g).breakers[service] == CB.At(CB.DEFAULT_SETTINGS, tr, |tr|)
            && Outcomes(tr, ok) == Count(g.tasks, Told(service, ok))
  {
    var g := Interleave(strategy, Start(services), actions);
    CallsExtend(strategy, services, actions);
    StaysRegistered(services, g.calls, |g.calls|, service);
    BreakersAreHistories(strategy, g.calls, |g.calls|, service);
    NoRecordings(services, service, ok);
    OneRecordPerSend(strategy, services, actions, service, ok);
    forall i | 0 <= i < |g.calls| && !Registered(g.calls, i, service) ensures !Records(g.calls[i], service, ok) {
      if i >= |services| {
        StaysRegistered(services, g.calls, i, service);
      }
    }
    CallsAreRecordings(g.calls, |g.calls|, service, ok);
    assert g.calls[..|g.calls|] == g.calls;
  }

  lemma {:induction false} NoRecordings(services: seq<Op>, service: string, ok: bool)
    requires forall i :: 0 <= i < |services| ==> services[i].Register?
    ensures Recordings(services, service, ok) == 0
  {
    if services != [] {
      NoRecordings(services[..|services| - 1], service, ok);
    }
  }
}
