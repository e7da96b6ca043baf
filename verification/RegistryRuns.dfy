/** Runs of registry operations (services/gateway/src/discovery.rs): invariants, the meaning of every answer of
    `get_instance`, each service's breaker as a function of the calls it received, and how the strategies spread
    requests over instances.
 */
module RegistryRuns {
  import opened Common
  import opened CircuitBreaking
  import opened LoadBalance
  import opened Registry

  function Run(strategy: Strategy, ops: seq<Op>, n: nat): State
    requires n <= |ops|
  {
    if n == 0 then EMPTY else Do(strategy, Run(strategy, ops, n - 1), ops[n - 1])
  }

  // ---------- invariants ----------

  predicate GoodBreaker(b: Breaker) {
    && (b.state == Closed ==> b.failureCount < DEFAULT_SETTINGS.failureThreshold && b.successCount == 0)
    && (b.state == HalfOpen ==> b.successCount < DEFAULT_SETTINGS.successThreshold)
    && (b.state == Open ==> b.lastFailure.Some?)
  }

  ghost predicate Good(st: State) {
    && st.services.Keys == st.breakers.Keys
    && st.counters.Keys <= st.services.Keys
    && (forall name :: name in st.services ==> st.services[name] != [])
    && forall name :: name in st.breakers ==> GoodBreaker(st.breakers[name])
  }

  predicate Consistent(i: Instance) {
    i.healthy <==> i.failureCount == 0
  }

  ghost predicate AllConsistent(st: State) {
    forall name :: name in st.services ==> forall i :: 0 <= i < |st.services[name]| ==> Consistent(st.services[name][i])
  }

  lemma StepKeepsGoodBreaker(b: Breaker, e: Event)
    requires GoodBreaker(b)
    ensures GoodBreaker(Step(DEFAULT_SETTINGS, b, e))
  {}

  lemma FreshIsGood()
    ensures GoodBreaker(FRESH)
  {}

  lemma StepKeepsGood(strategy: Strategy, st: State, op: Op)
    requires Good(st)
    ensures Good(Do(strategy, st, op))
  {
    hide Step, Healthy, Positions, GoodBreaker, CheckedFirst, Select;
    var e := Call(op);
    if e.Some? && op.name in st.breakers {
      StepKeepsGoodBreaker(st.breakers[op.name], e.value);
    }
    FreshIsGood();
  }

  /** Names, counters and breakers agree in every reachable state; an open breaker always knows its last failure. */
  lemma {:induction false} AlwaysGood(strategy: Strategy, ops: seq<Op>, n: nat)
    requires n <= |ops|
    ensures Good(Run(strategy, ops, n))
  {
    if n > 0 {
      AlwaysGood(strategy, ops, n - 1);
      StepKeepsGood(strategy, Run(strategy, ops, n - 1), ops[n - 1]);
    }
  }

  lemma {:induction false} AlwaysConsistent(strategy: Strategy, ops: seq<Op>, n: nat)
    requires n <= |ops|
    requires forall i :: 0 <= i < n && ops[i].Register? ==> Consistent(ops[i].instance)
    ensures AllConsistent(Run(strategy, ops, n))
  {
    if n > 0 {
      AlwaysConsistent(strategy, ops, n - 1);
    }
  }

  // ---------- the instances of a service ----------

  /** What an instance keeps for ever: everything but its health and its measurements. */
  datatype Identity = Identity(id: string, url: string, activeConnections: nat)

  function IdentityOf(i: Instance): Identity {
    Identity(i.id, i.url, i.activeConnections)
  }

  function Identities(list: seq<Instance>): (r: seq<Identity>)
    ensures |r| == |list| && forall i :: 0 <= i < |r| ==> r[i] == IdentityOf(list[i])
  {
    seq(|list|, i requires 0 <= i < |list| => IdentityOf(list[i]))
  }

  function Registrations(ops: seq<Op>, n: nat, name: string): seq<Identity>
    requires n <= |ops|
  {
    if n == 0 then []
    else if ops[n - 1].Register? && ops[n - 1].name == name
    then Registrations(ops, n - 1, name) + [IdentityOf(ops[n - 1].instance)]
    else Registrations(ops, n - 1, name)
  }

  lemma StepIdentities(strategy: Strategy, st: State, op: Op, name: string)
    ensures Identities(Instances(Do(strategy, st, op), name)) ==
            Identities(Instances(st, name)) + if op.Register? && op.name == name then [IdentityOf(op.instance)] else []
  {
    var before, after := Instances(st, name), Instances(Do(strategy, st, op), name);
    if op.Register? && op.name == name {
      assert after == before + [op.instance];
    } else {
      assert |after| == |before|;
    }
  }

  /** A service's instances are its registrations, in order: nothing loses, repeats or reorders them, and nothing
      ever changes their connection counts. */
  lemma {:induction false} InstancesAreRegistrations(strategy: Strategy, ops: seq<Op>, n: nat, name: string)
    requires n <= |ops|
    ensures Identities(Instances(Run(strategy, ops, n), name)) == Registrations(ops, n, name)
  {
    if n > 0 {
      InstancesAreRegistrations(strategy, ops, n - 1, name);
      StepIdentities(strategy, Run(strategy, ops, n - 1), ops[n - 1], name);
    }
  }

  // ---------- what health reports leave behind ----------

  /** Call `j` is a health report that reaches the service's `k`-th registration: the first one, by then, with its id. */
  predicate Reaches(ops: seq<Op>, j: nat, name: string, k: nat)
    requires j < |ops|
  {
    && ops[j].SetHealth? && ops[j].name == name
    && var ids := Registrations(ops, j, name);
       k < |ids| && ids[k].id == ops[j].id && forall l :: 0 <= l < k ==> ids[l].id != ops[j].id
  }

  predicate ReachesWith(ops: seq<Op>, j: nat, name: string, k: nat, healthy: bool)
    requires j < |ops|
  {
    Reaches(ops, j, name, k) && ops[j].healthy == healthy
  }

  ghost predicate LatestReport(ops: seq<Op>, n: nat, name: string, k: nat, j: nat)
    requires n <= |ops|
  {
    j < n && Reaches(ops, j, name, k) && forall i :: j < i < n ==> !Reaches(ops, i, name, k)
  }

  ghost predicate LatestHealthy(ops: seq<Op>, n: nat, name: string, k: nat, j: nat)
    requires n <= |ops|
  {
    j < n && ReachesWith(ops, j, name, k, true) && forall i :: j < i < n ==> !ReachesWith(ops, i, name, k, true)
  }

  /** The unhealthy reports among calls `lo` to `n` that reach the `k`-th registration. */
  ghost function UnhealthyReports(ops: seq<Op>, lo: nat, n: nat, name: string, k: nat): nat
    requires n <= |ops|
  {
    if n <= lo then 0
    else UnhealthyReports(ops, lo, n - 1, name, k) + if ReachesWith(ops, n - 1, name, k, false) then 1 else 0
  }

  /** The service's `k`-th instance after `n` calls. */
  function Nth(strategy: Strategy, ops: seq<Op>, n: nat, name: string, k: nat): (i: Instance)
    requires n <= |ops| && k < |Registrations(ops, n, name)|
  {
    InstancesAreRegistrations(strategy, ops, n, name);
    Instances(Run(strategy, ops, n), name)[k]
  }

  /** What call `m` makes of the `k`-th instance: only reports that reach it and recorded successes change it. */
  ghost predicate ChangesTo(ops: seq<Op>, m: nat, name: string, k: nat, i: Instance, i': Instance)
    requires m < |ops|
  {
    var op := ops[m];
    if Reaches(ops, m, name, k) then
      && i'.healthy == op.healthy && i'.lastCheck == Some(op.now)
      && i'.failureCount == (if op.healthy then 0 else i.failureCount + 1)
      && i'.avgResponseTimeMs == i.avgResponseTimeMs && IdentityOf(i') == IdentityOf(i)
    else if op.Succeed? && op.name == name then i' == i.(avgResponseTimeMs := Average(i.avgResponseTimeMs, op.ms))
    else i' == i
  }

  /** The same on any state: a report reaches the first instance with its id, and no other. */
  lemma StepChanges(strategy: Strategy, st: State, op: Op, k: nat, first: bool)
    requires k < |Instances(st, op.name)|
    requires var list := Instances(st, op.name);
             first <==> op.SetHealth? && list[k].id == op.id && forall l :: 0 <= l < k ==> list[l].id != op.id
    ensures k < |Instances(Do(strategy, st, op), op.name)|
    ensures var i, i' := Instances(st, op.name)[k], Instances(Do(strategy, st, op), op.name)[k];
            if first then
              && i'.healthy == op.healthy && i'.lastCheck == Some(op.now)
              && i'.failureCount == (if op.healthy then 0 else i.failureCount + 1)
              && i'.avgResponseTimeMs == i.avgResponseTimeMs && IdentityOf(i') == IdentityOf(i)
            else if op.Succeed? then i' == i.(avgResponseTimeMs := Average(i.avgResponseTimeMs, op.ms))
            else i' == i
  {
    if op.SetHealth? {
      FirstIs(Instances(st, op.name), op.id, k);
    }
  }

  lemma NthNext(strategy: Strategy, ops: seq<Op>, n: nat, name: string, k: nat)
    requires 0 < n <= |ops| && k < |Registrations(ops, n - 1, name)|
    ensures k < |Registrations(ops, n, name)|
    ensures ChangesTo(ops, n - 1, name, k, Nth(strategy, ops, n - 1, name, k), Nth(strategy, ops, n, name, k))
  {
    hide Do, Average;
    InstancesAreRegistrations(strategy, ops, n - 1, name);
    var st, op := Run(strategy, ops, n - 1), ops[n - 1];
    if op.name == name {
      ReachesIff(ops, n - 1, name, k, Instances(st, name));
      StepChanges(strategy, st, op, k, Reaches(ops, n - 1, name, k));
    } else {
      ServicesAreIndependent(strategy, st, op, name);
    }
  }

  lemma ReachesIff(ops: seq<Op>, m: nat, name: string, k: nat, list: seq<Instance>)
    requires m < |ops| && Registrations(ops, m, name) == Identities(list) && k < |list|
    ensures Reaches(ops, m, name, k) <==>
            && ops[m].SetHealth? && ops[m].name == name
            && list[k].id == ops[m].id && forall l :: 0 <= l < k ==> list[l].id != ops[m].id
  {
    assert forall l :: 0 <= l < |list| ==> Registrations(ops, m, name)[l].id == list[l].id;
  }

  lemma FirstIs(list: seq<Instance>, id: string, k: nat)
    requires k < |list|
    ensures FirstWith(list, id) == k <==> list[k].id == id && forall l :: 0 <= l < k ==> list[l].id != id
  {}

  lemma Newest(strategy: Strategy, ops: seq<Op>, r: nat)
    requires r < |ops| && ops[r].Register?
    ensures var name := ops[r].name;
            var k := |Registrations(ops, r, name)|;
            k < |Registrations(ops, r + 1, name)| && Nth(strategy, ops, r + 1, name, k) == ops[r].instance
  {
    InstancesAreRegistrations(strategy, ops, r, ops[r].name);
  }

  lemma {:induction false} StaysRegistration(ops: seq<Op>, r: nat, n: nat)
    requires r < n <= |ops| && ops[r].Register?
    ensures |Registrations(ops, r, ops[r].name)| < |Registrations(ops, n, ops[r].name)|
  {
    if r + 1 < n {
      StaysRegistration(ops, r, n - 1);
    }
  }

  /** Before it is registered nothing reaches an instance. */
  lemma {:induction false} NotReachedBefore(ops: seq<Op>, r: nat, j: nat)
    requires j <= r < |ops| && ops[r].Register?
    ensures |Registrations(ops, j, ops[r].name)| <= |Registrations(ops, r, ops[r].name)|
    ensures !Reaches(ops, j, ops[r].name, |Registrations(ops, r, ops[r].name)|)
    decreases r - j
  {
    if j < r {
      NotReachedBefore(ops, r, j + 1);
    }
  }

  /** The latest report that reached the instance says whether it is healthy and when it was last checked; before any
      report that is as it was registered. */
  ghost predicate HealthTold(ops: seq<Op>, n: nat, name: string, k: nat, registered: Instance, i: Instance)
    requires n <= |ops|
  {
    && (forall j: nat :: LatestReport(ops, n, name, k, j) ==> i.healthy == ops[j].healthy && i.lastCheck == Some(ops[j].now))
    && ((forall j :: 0 <= j < n ==> !Reaches(ops, j, name, k)) ==>
          i.healthy == registered.healthy && i.lastCheck == registered.lastCheck)
  }

  lemma HealthToldNext(ops: seq<Op>, n: nat, name: string, k: nat, registered: Instance, i: Instance, i': Instance)
    requires 0 < n <= |ops| && HealthTold(ops, n - 1, name, k, registered, i)
    requires if Reaches(ops, n - 1, name, k)
             then i'.healthy == ops[n - 1].healthy && i'.lastCheck == Some(ops[n - 1].now)
             else i'.healthy == i.healthy && i'.lastCheck == i.lastCheck
    ensures HealthTold(ops, n, name, k, registered, i')
  {
    hide Registrations;
    forall j: nat | LatestReport(ops, n, name, k, j)
      ensures i'.healthy == ops[j].healthy && i'.lastCheck == Some(ops[j].now)
    {
      assert j < n - 1 ==> LatestReport(ops, n - 1, name, k, j);
    }
  }

  /** Failures are the unhealthy reports that have reached the instance since the latest healthy one, on top of what it
      was registered with if no healthy one has. */
  ghost predicate FailuresTold(ops: seq<Op>, n: nat, name: string, k: nat, registered: nat, failures: nat)
    requires n <= |ops|
  {
    && (forall j: nat :: LatestHealthy(ops, n, name, k, j) ==> failures == UnhealthyReports(ops, j + 1, n, name, k))
    && ((forall j :: 0 <= j < n ==> !ReachesWith(ops, j, name, k, true)) ==>
          failures == registered + UnhealthyReports(ops, 0, n, name, k))
  }

  lemma FailuresToldNext(ops: seq<Op>, n: nat, name: string, k: nat, registered: nat, failures: nat, failures': nat)
    requires 0 < n <= |ops| && FailuresTold(ops, n - 1, name, k, registered, failures)
    requires failures' == if ReachesWith(ops, n - 1, name, k, true) then 0
                          else if ReachesWith(ops, n - 1, name, k, false) then failures + 1
                          else failures
    ensures FailuresTold(ops, n, name, k, registered, failures')
  {
    hide Reaches;
    forall j: nat | LatestHealthy(ops, n, name, k, j) ensures failures' == UnhealthyReports(ops, j + 1, n, name, k) {
      if j < n - 1 {
        assert LatestHealthy(ops, n - 1, name, k, j);
      }
    }
  }

  lemma {:induction false} NoneUnhealthy(ops: seq<Op>, lo: nat, n: nat, name: string, k: nat)
    requires n <= |ops| && forall j :: lo <= j < n ==> !Reaches(ops, j, name, k)
    ensures UnhealthyReports(ops, lo, n, name, k) == 0
  {
    if lo < n {
      NoneUnhealthy(ops, lo, n - 1, name, k);
    }
  }

  lemma ToldAtFirst(ops: seq<Op>, r: nat)
    requires r < |ops| && ops[r].Register?
    ensures var name, i := ops[r].name, ops[r].instance;
            var k := |Registrations(ops, r, name)|;
            && HealthTold(ops, r + 1, name, k, i, i)
            && FailuresTold(ops, r + 1, name, k, i.failureCount, i.failureCount)
  {
    var name := ops[r].name;
    var k := |Registrations(ops, r, name)|;
    forall j: nat | j < r + 1 ensures !Reaches(ops, j, name, k) {
      NotReachedBefore(ops, r, j);
    }
    NoneUnhealthy(ops, 0, r + 1, name, k);
  }

  /** What calls have made of the `k`-th registration, which was call `r`: its health is as the latest report that
      reached it told, its failures are the unhealthy reports since the latest healthy one, its response time is averaged
      over the successes recorded for the service since, and everything else is as registered. */
  ghost predicate ToldByCalls(ops: seq<Op>, n: nat, r: nat, k: nat, i: Instance)
    requires r < n <= |ops| && ops[r].Register?
  {
    var name, registered := ops[r].name, ops[r].instance;
    && HealthTold(ops, n, name, k, registered, i)
    && FailuresTold(ops, n, name, k, registered.failureCount, i.failureCount)
    && i.avgResponseTimeMs == AverageRun(registered.avgResponseTimeMs, Samples(ops[r + 1..n], name))
    && IdentityOf(i) == IdentityOf(registered)
  }

  lemma ToldNext(ops: seq<Op>, n: nat, r: nat, k: nat, i: Instance, i': Instance)
    requires r + 1 < n <= |ops| && ops[r].Register? && ToldByCalls(ops, n - 1, r, k, i)
    requires ChangesTo(ops, n - 1, ops[r].name, k, i, i')
    ensures ToldByCalls(ops, n, r, k, i')
  {
    hide HealthTold, FailuresTold, Reaches, Samples, AverageRun, Average;
    var name := ops[r].name;
    HealthToldNext(ops, n, name, k, ops[r].instance, i, i');
    FailuresToldNext(ops, n, name, k, ops[r].instance.failureCount, i.failureCount, i'.failureCount);
    SampledNext(ops, n, r, ops[r].instance.avgResponseTimeMs);
    ReachingIsReport(ops, n - 1, name, k);
  }

  lemma ReachingIsReport(ops: seq<Op>, m: nat, name: string, k: nat)
    requires m < |ops|
    ensures Reaches(ops, m, name, k) ==> ops[m].SetHealth?
  {}

  lemma SampledNext(ops: seq<Op>, n: nat, r: nat, avg: real)
    requires r + 1 < n <= |ops|
    ensures var op, name := ops[n - 1], ops[r].name;
            AverageRun(avg, Samples(ops[r + 1..n], name)) ==
            var before := AverageRun(avg, Samples(ops[r + 1..n - 1], name));
            if op.Succeed? && op.name == name then Average(before, op.ms) else before
  {
    var front := Samples(ops[r + 1..n - 1], ops[r].name);
    assert ops[r + 1..n][..n - r - 2] == ops[r + 1..n - 1];
    if ops[n - 1].Succeed? {
      var all := front + [ops[n - 1].ms];
      assert all[..|all| - 1] == front;
    }
  }

  /** In every run every instance is as the calls since its registration tell. */
  lemma {:induction false} InstancesAreTold(strategy: Strategy, ops: seq<Op>, n: nat, r: nat)
    requires r < n <= |ops| && ops[r].Register?
    ensures var name := ops[r].name;
            var k := |Registrations(ops, r, name)|;
            k < |Registrations(ops, n, name)| && ToldByCalls(ops, n, r, k, Nth(strategy, ops, n, name, k))
  {
    hide Nth, Registrations, HealthTold, FailuresTold;
    var name := ops[r].name;
    var k := |Registrations(ops, r, name)|;
    StaysRegistration(ops, r, n);
    if r + 1 == n {
      Newest(strategy, ops, r);
      ToldAtFirst(ops, r);
    } else {
      InstancesAreTold(strategy, ops, n - 1, r);
      StaysRegistration(ops, r, n - 1);
      NthNext(strategy, ops, n, name, k);
      ToldNext(ops, n, r, k, Nth(strategy, ops, n - 1, name, k), Nth(strategy, ops, n, name, k));
    }
  }

  // ---------- what get_instance answers ----------

  predicate AllUnhealthy(list: seq<Instance>) {
    forall i :: 0 <= i < |list| ==> !list[i].healthy
  }

  predicate Tripped(st: State, name: string, now: nat) {
    && name in st.breakers && st.breakers[name].state == Open
    && st.breakers[name].lastFailure.Some?
    && now < st.breakers[name].lastFailure.value + 30
  }

  /** Each of the four answers, exactly. */
  lemma AnswerExactly(strategy: Strategy, st: State, name: string, now: nat)
    requires Good(st)
    ensures var r := Answer(strategy, st, name, now);
            && (r == Err(NotFound) <==> name !in st.services)
            && (r == Err(ServiceUnavailable(CircuitIsOpen)) <==> Tripped(st, name, now))
            && (r == Err(ServiceUnavailable(NoHealthyInstances)) <==>
                name in st.services && !Tripped(st, name, now) && AllUnhealthy(st.services[name]))
            && (r.Ok? ==> name in st.services && r.value in st.services[name] && r.value.healthy)
  {}

  /** The other two strategies answer with the first of the healthy instances that have the fewest connections or the
      least response time. */
  lemma AnswerIsBest(strategy: Strategy, st: State, name: string, now: nat)
    requires strategy != RoundRobin && Answer(strategy, st, name, now).Ok?
    ensures name in st.services && exists i :: BestAt(strategy, st.services[name], i) &&
                                               Answer(strategy, st, name, now).value == st.services[name][i]
  {
    hide Positions, Healthy, Select, NoWorse, Allowed;
    var list := st.services[name];
    var healthy, p := Healthy(list), Positions(list);
    var x := Select(strategy, Counter(st, name), healthy);
    forall j | 0 <= j < |list| && list[j].healthy
      ensures NoWorse(strategy, list[p[x]], list[j]) && (j < p[x] ==> !NoWorse(strategy, list[j], list[p[x]]))
    {
      var y :| 0 <= y < |p| && p[y] == j;
      SelectsBest(strategy, Counter(st, name), healthy, y);
      assert x < y ==> p[x] < p[y];
    }
    assert BestAt(strategy, list, p[x]);
  }

  lemma SelectsBest(strategy: Strategy, counter: nat, healthy: seq<Instance>, y: nat)
    requires strategy != RoundRobin && y < |healthy|
    ensures var x := Select(strategy, counter, healthy);
            NoWorse(strategy, healthy[x], healthy[y]) && (y < x ==> !NoWorse(strategy, healthy[y], healthy[x]))
  {
    var keys := if strategy == LeastConnections then Connections(healthy) else Times(healthy);
    var x := Select(strategy, counter, healthy);
    assert keys[x] <= keys[y] && (y < x ==> keys[x] < keys[y]);
  }

  predicate NoWorse(strategy: Strategy, a: Instance, b: Instance) {
    match strategy
    case LeastConnections => a.activeConnections <= b.activeConnections
    case WeightedResponseTime => a.avgResponseTimeMs <= b.avgResponseTimeMs
    case RoundRobin => true
  }

  predicate BestAt(strategy: Strategy, list: seq<Instance>, i: int) {
    && 0 <= i < |list| && list[i].healthy
    && forall j :: 0 <= j < |list| && list[j].healthy ==>
         NoWorse(strategy, list[i], list[j]) && (j < i ==> !NoWorse(strategy, list[j], list[i]))
  }

  ghost predicate SameFor(a: State, b: State, name: string) {
    && (name in a.services <==> name in b.services)
    && (name in a.services ==> a.services[name] == b.services[name])
    && (name in a.breakers <==> name in b.breakers)
    && (name in a.breakers ==> a.breakers[name] == b.breakers[name])
    && Counter(a, name) == Counter(b, name)
  }

  /** Services do not see each other: an operation changes nothing of another service, and what a service answers
      and becomes depends only on its own part. */
  lemma ServicesAreIndependent(strategy: Strategy, st: State, op: Op, other: string)
    requires op.name != other
    ensures SameFor(Do(strategy, st, op), st, other)
  {}

  lemma OwnPartDecides(strategy: Strategy, a: State, b: State, op: Op)
    requires SameFor(a, b, op.name)
    ensures SameFor(Do(strategy, a, op), Do(strategy, b, op), op.name)
    ensures op.Get? ==> Answer(strategy, a, op.name, op.now) == Answer(strategy, b, op.name, op.now)
  {}

  // ---------- each breaker is its history ----------

  predicate Registered(ops: seq<Op>, n: nat, name: string)
    requires n <= |ops|
  {
    exists i :: 0 <= i < n && ops[i].Register? && ops[i].name == name
  }

  function Call(op: Op): Option<Event> {
    match op
    case Get(_, now) => Some(Allow(now))
    case Succeed(_, _) => Some(Success)
    case Fail(_, now) => Some(Failure(now))
    case Register(_, _) => None
    case SetHealth(_, _, _, _) => None
  }

  /** The breaker calls made for a service since it was first registered. */
  function Calls(ops: seq<Op>, n: nat, name: string): seq<Event>
    requires n <= |ops|
  {
    if n == 0 then []
    else if ops[n - 1].name == name && Registered(ops, n - 1, name) && Call(ops[n - 1]).Some?
    then Calls(ops, n - 1, name) + [Call(ops[n - 1]).value]
    else Calls(ops, n - 1, name)
  }

  lemma {:induction false} AtPrefix(cfg: Settings, tr: seq<Event>, e: Event, n: nat)
    requires n <= |tr|
    ensures At(cfg, tr + [e], n) == At(cfg, tr, n)
  {
    if n > 0 {
      AtPrefix(cfg, tr, e, n - 1);
    }
  }

  lemma AtExtended(cfg: Settings, tr: seq<Event>, e: Event)
    ensures At(cfg, tr + [e], |tr| + 1) == Step(cfg, At(cfg, tr, |tr|), e)
  {
    AtPrefix(cfg, tr, e, |tr|);
  }

  function BreakerOf(ops: seq<Op>, n: nat, name: string): Breaker
    requires n <= |ops|
  {
    At(DEFAULT_SETTINGS, Calls(ops, n, name), |Calls(ops, n, name)|)
  }

  lemma {:induction false} NoCallsBeforeRegistration(ops: seq<Op>, n: nat, name: string)
    requires n <= |ops| && !Registered(ops, n, name)
    ensures Calls(ops, n, name) == []
  {
    if n > 0 {
      assert forall i :: 0 <= i < n - 1 ==> !(ops[i].Register? && ops[i].name == name);
      NoCallsBeforeRegistration(ops, n - 1, name);
    }
  }

  lemma RegisteredStep(ops: seq<Op>, n: nat, name: string)
    requires 0 < n <= |ops|
    ensures Registered(ops, n, name) <==> Registered(ops, n - 1, name) || (ops[n - 1].Register? && ops[n - 1].name == name)
  {
    if Registered(ops, n - 1, name) {
      var i :| 0 <= i < n - 1 && ops[i].Register? && ops[i].name == name;
      assert 0 <= i < n;
    }
  }

  lemma BreakerStep(strategy: Strategy, st: State, op: Op, name: string)
    ensures var st' := Do(strategy, st, op);
            && (name in st'.breakers <==> name in st.breakers || (op.Register? && op.name == name))
            && (name in st.breakers && op.name == name && Call(op).Some? ==>
                st'.breakers[name] == Step(DEFAULT_SETTINGS, st.breakers[name], Call(op).value))
            && (name in st.breakers && !(op.name == name && Call(op).Some?) ==> st'.breakers[name] == st.breakers[name])
            && (name in st'.breakers && name !in st.breakers ==> st'.breakers[name] == FRESH)
  {}

  /** In every run, exactly the registered services have a breaker, and it is the breaker whose history is the calls
      made for that service, whatever happened to other services in between. */
  lemma {:induction false} BreakersAreHistories(strategy: Strategy, ops: seq<Op>, n: nat, name: string)
    requires n <= |ops|
    ensures name in Run(strategy, ops, n).breakers <==> Registered(ops, n, name)
    ensures name in Run(strategy, ops, n).breakers ==> Run(strategy, ops, n).breakers[name] == BreakerOf(ops, n, name)
  {
    hide Do, Step;
    if n > 0 {
      var op := ops[n - 1];
      BreakersAreHistories(strategy, ops, n - 1, name);
      BreakerStep(strategy, Run(strategy, ops, n - 1), op, name);
      RegisteredStep(ops, n, name);
      if !Registered(ops, n - 1, name) {
        NoCallsBeforeRegistration(ops, n - 1, name);
      } else if op.name == name && Call(op).Some? {
        AtExtended(DEFAULT_SETTINGS, Calls(ops, n - 1, name), Call(op).value);
      }
    }
  }

  /** A request is refused by the breaker exactly when, in the history of its service, the breaker stands open and
      the latest failure is less than thirty seconds ago. */
  lemma RefusedExactly(strategy: Strategy, ops: seq<Op>, n: nat, name: string, now: nat)
    requires n <= |ops|
    ensures var tr := Calls(ops, n, name);
            Answer(strategy, Run(strategy, ops, n), name, now) == Err(ServiceUnavailable(CircuitIsOpen)) <==>
            && Registered(ops, n, name) && At(DEFAULT_SETTINGS, tr, |tr|).state == Open
            && exists i: nat :: LatestFailure(tr, |tr|, i) && now < tr[i].now + 30
  {
    var tr := Calls(ops, n, name);
    BreakersAreHistories(strategy, ops, n, name);
    AdmitsExactly(DEFAULT_SETTINGS, tr, |tr|, now);
  }

  // ---------- runs from any state ----------

  function RunFrom(strategy: Strategy, st: State, ops: seq<Op>): State {
    if ops == [] then st
    else Do(strategy, RunFrom(strategy, st, ops[..|ops| - 1]), ops[|ops| - 1])
  }

  function Samples(ops: seq<Op>, name: string): seq<nat> {
    if ops == [] then []
    else
      var op, rest := ops[|ops| - 1], Samples(ops[..|ops| - 1], name);
      if op.Succeed? && op.name == name then rest + [op.ms] else rest
  }

  function List(st: State, name: string): seq<Instance> {
    Healthy(Instances(st, name))
  }

  /** The instance after samples have been averaged in; nothing else about it changes. */
  function Aged(i: Instance, samples: seq<nat>): Instance {
    i.(avgResponseTimeMs := AverageRun(i.avgResponseTimeMs, samples))
  }

  ghost predicate AgedFrom(list: seq<Instance>, list': seq<Instance>, samples: seq<nat>) {
    |list'| == |list| && forall i :: 0 <= i < |list| ==> list'[i] == Aged(list[i], samples)
  }

  lemma {:induction false} SamePositions(list: seq<Instance>, list': seq<Instance>)
    requires |list'| == |list| && forall i :: 0 <= i < |list| ==> list'[i].healthy == list[i].healthy
    ensures Positions(list') == Positions(list)
  {
    if list != [] {
      SamePositions(list[..|list| - 1], list'[..|list| - 1]);
    }
  }

  lemma HealthyAged(list: seq<Instance>, list': seq<Instance>, samples: seq<nat>)
    requires AgedFrom(list, list', samples)
    ensures AgedFrom(Healthy(list), Healthy(list'), samples) && Positions(list') == Positions(list)
  {
    hide Healthy, Positions;
    SamePositions(list, list');
  }

  lemma AgeOnce(list: seq<Instance>, list': seq<Instance>, samples: seq<nat>, ms: nat)
    requires AgedFrom(list, list', samples)
    ensures AgedFrom(list, MeasuredAll(list', ms), samples + [ms])
  {
    var s := samples + [ms];
    assert s[..|s| - 1] == samples;
  }

  /** Nothing but requests and recorded outcomes happens to the service: no health report, no registration. */
  predicate Undisturbed(ops: seq<Op>, name: string) {
    forall i :: 0 <= i < |ops| && ops[i].name == name ==> ops[i].Get? || ops[i].Succeed? || ops[i].Fail?
  }

  lemma {:induction false} InstancesOnlyAge(strategy: Strategy, st: State, ops: seq<Op>, name: string)
    requires Undisturbed(ops, name)
    ensures AgedFrom(Instances(st, name), Instances(RunFrom(strategy, st, ops), name), Samples(ops, name))
  {
    if ops != [] {
      var front, op := ops[..|ops| - 1], ops[|ops| - 1];
      InstancesOnlyAge(strategy, st, front, name);
      AgeStep(strategy, RunFrom(strategy, st, front), op, name);
      if op.name == name && op.Succeed? {
        AgeOnce(Instances(st, name), Instances(RunFrom(strategy, st, front), name), Samples(front, name), op.ms);
      }
    }
  }

  lemma AgeStep(strategy: Strategy, st: State, op: Op, name: string)
    requires op.name == name ==> op.Get? || op.Succeed? || op.Fail?
    ensures Instances(Do(strategy, st, op), name) ==
            if op.name == name && op.Succeed? then MeasuredAll(Instances(st, name), op.ms) else Instances(st, name)
  {}

  /** In an undisturbed run the healthy instances stay the same ones and only age. */
  lemma ListOnlyAges(strategy: Strategy, st: State, ops: seq<Op>, name: string)
    requires Undisturbed(ops, name)
    ensures AgedFrom(List(st, name), List(RunFrom(strategy, st, ops), name), Samples(ops, name))
  {
    InstancesOnlyAge(strategy, st, ops, name);
    HealthyAged(Instances(st, name), Instances(RunFrom(strategy, st, ops), name), Samples(ops, name));
  }

  // ---------- round robin ----------

  /** A granted request: the position of its answer among the healthy instances, and how many there were. */
  datatype Grant = Grant(index: nat, size: nat)

  function Grants(strategy: Strategy, st: State, ops: seq<Op>, name: string): seq<Grant> {
    if ops == [] then []
    else
      var front, op := ops[..|ops| - 1], ops[|ops| - 1];
      var rest, mid := Grants(strategy, st, front, name), RunFrom(strategy, st, front);
      if op.Get? && op.name == name && Answer(strategy, mid, name, op.now).Ok?
      then rest + [Grant(Select(strategy, Counter(mid, name), List(mid, name)), |List(mid, name)|)]
      else rest
  }

  lemma GrantIsAnswer(strategy: Strategy, st: State, name: string, now: nat)
    requires Answer(strategy, st, name, now).Ok?
    ensures List(st, name) != []
    ensures Answer(strategy, st, name, now).value == List(st, name)[Select(strategy, Counter(st, name), List(st, name))]
  {}

  lemma CounterStep(st: State, op: Op, name: string)
    ensures Counter(Do(RoundRobin, st, op), name) ==
            if op.Get? && op.name == name && Answer(RoundRobin, st, name, op.now).Ok?
            then NextCounter(WORD, Counter(st, name)) else Counter(st, name)
  {}

  /** In every run whatsoever, a service's counter counts its granted requests. */
  lemma {:induction false} CounterCountsGrants(st: State, ops: seq<Op>, name: string)
    ensures Counter(RunFrom(RoundRobin, st, ops), name) ==
            After(WORD, Counter(st, name), |Grants(RoundRobin, st, ops, name)|)
  {
    if ops != [] {
      CounterCountsGrants(st, ops[..|ops| - 1], name);
      CounterStep(RunFrom(RoundRobin, st, ops[..|ops| - 1]), ops[|ops| - 1], name);
    }
  }

  predicate FollowsCounter(grants: seq<Grant>, word: nat, c: nat)
    requires c < word
  {
    forall i :: 0 <= i < |grants| ==> grants[i].size > 0 && grants[i].index == Rem(After(word, c, i), grants[i].size)
  }

  lemma FollowOnce(grants: seq<Grant>, word: nat, c: nat, size: nat)
    requires c < word && size > 0 && FollowsCounter(grants, word, c)
    ensures FollowsCounter(grants + [Grant(Rem(After(word, c, |grants|), size), size)], word, c)
  {}

  /** In every run whatsoever, mixed with any other operations, refusals, failures and health reports included, the i-th
      granted request of a service gets the i-th turn of one uninterrupted run of the counter over the instances that
      are healthy at that moment. */
  lemma {:induction false} TurnsFollowCounter(st: State, ops: seq<Op>, name: string)
    ensures FollowsCounter(Grants(RoundRobin, st, ops, name), WORD, Counter(st, name))
  {
    if ops != [] {
      var front, op := ops[..|ops| - 1], ops[|ops| - 1];
      TurnsFollowCounter(st, front, name);
      CounterCountsGrants(st, front, name);
      var mid := RunFrom(RoundRobin, st, front);
      if op.Get? && op.name == name && Answer(RoundRobin, mid, name, op.now).Ok? {
        GrantIsAnswer(RoundRobin, mid, name, op.now);
        FollowOnce(Grants(RoundRobin, st, front, name), WORD, Counter(st, name), |List(mid, name)|);
      }
    }
  }

  /** From the start of the registry on, the `i`-th grant of a service goes to the instance at `i` modulo their number,
      once `i` has been taken modulo the range of 64 bits. */
  lemma TurnsFromTheStart(ops: seq<Op>, name: string, i: nat)
    requires i < |Grants(RoundRobin, EMPTY, ops, name)|
    ensures var g := Grants(RoundRobin, EMPTY, ops, name)[i];
            g.size > 0 && g.index == i % 0x1_0000_0000_0000_0000 % g.size
  {
    TurnsFollowCounter(EMPTY, ops, name);
    CounterIs(WORD, 0, i);
    QuoRemIs(i, WORD);
    QuoRemIs(i % WORD, Grants(RoundRobin, EMPTY, ops, name)[i].size);
  }

  /** How many of the grants went to the `r`-th healthy instance. */
  function Served(grants: seq<Grant>, r: nat): nat {
    if grants == [] then 0
    else Served(grants[..|grants| - 1], r) + if grants[|grants| - 1].index == r then 1 else 0
  }

  predicate AllOfSize(grants: seq<Grant>, n: nat) {
    forall i :: 0 <= i < |grants| ==> grants[i].size == n
  }

  lemma {:induction false} ServedIsCount(grants: seq<Grant>, word: nat, c: nat, n: nat, r: nat)
    requires c < word && r < n && FollowsCounter(grants, word, c) && AllOfSize(grants, n)
    ensures Served(grants, r) == Count(word, c, |grants|, n, r)
  {
    if grants != [] {
      var front := grants[..|grants| - 1];
      assert FollowsCounter(front, word, c) && AllOfSize(front, n);
      ServedIsCount(front, word, c, n, r);
    }
  }

  /** Whenever every granted request found n healthy instances, each of the n positions gets floor or ceiling of its
      share until the counter wraps, and no two are ever more than two apart across one wrap. */
  lemma PositionsAreFair(st: State, ops: seq<Op>, name: string, n: nat, r: nat, s: nat)
    requires AllOfSize(Grants(RoundRobin, st, ops, name), n) && r < n && s < n
    ensures var grants, c := Grants(RoundRobin, st, ops, name), Counter(st, name);
            && (c + |grants| <= WORD ==> |grants| / n <= Served(grants, r) <= (|grants| + n - 1) / n)
            && (c + |grants| < 2 * WORD ==> -2 <= Served(grants, r) - Served(grants, s) <= 2)
  {
    hide Grants, Served, FollowsCounter, AllOfSize, Count, Counter;
    var grants, c := Grants(RoundRobin, st, ops, name), Counter(st, name);
    TurnsFollowCounter(st, ops, name);
    ServedIsCount(grants, WORD, c, n, r);
    ServedIsCount(grants, WORD, c, n, s);
    if c + |grants| <= WORD {
      FairWithoutWrap(WORD, c, |grants|, n, r);
    }
    if c + |grants| < 2 * WORD {
      FairAcrossOneWrap(WORD, c, |grants|, n, r, s);
    }
  }

  lemma {:induction false} UndisturbedSizes(strategy: Strategy, st: State, ops: seq<Op>, name: string)
    requires Undisturbed(ops, name)
    ensures AllOfSize(Grants(strategy, st, ops, name), |List(st, name)|)
  {
    if ops != [] {
      UndisturbedSizes(strategy, st, ops[..|ops| - 1], name);
      ListOnlyAges(strategy, st, ops[..|ops| - 1], name);
    }
  }

  /** While no health report and no registration comes for the service, whatever its breaker does, each of its n turns
      gets floor or ceiling of the granted requests until the counter wraps, and no two are ever more than two apart
      across one wrap. */
  lemma TurnsAreFair(st: State, ops: seq<Op>, name: string, r: nat, s: nat)
    requires Undisturbed(ops, name) && r < |List(st, name)| && s < |List(st, name)|
    ensures var grants, c, n := Grants(RoundRobin, st, ops, name), Counter(st, name), |List(st, name)|;
            && (c + |grants| <= WORD ==> |grants| / n <= Served(grants, r) <= (|grants| + n - 1) / n)
            && (c + |grants| < 2 * WORD ==> -2 <= Served(grants, r) - Served(grants, s) <= 2)
  {
    hide Grants, Served, List, Counter;
    UndisturbedSizes(RoundRobin, st, ops, name);
    PositionsAreFair(st, ops, name, |List(st, name)|, r, s);
  }

  /** In such a run the `r`-th turn is one registered instance: a granted request is answered with it, aged. */
  lemma GrantNamesInstance(strategy: Strategy, st: State, ops: seq<Op>, name: string, now: nat)
    requires Undisturbed(ops, name) && Answer(strategy, RunFrom(strategy, st, ops), name, now).Ok?
    ensures var st' := RunFrom(strategy, st, ops);
            var r := Select(strategy, Counter(st', name), List(st', name));
            var list := Instances(st, name);
            && r < |Positions(list)|
            && Answer(strategy, st', name, now).value == Aged(list[Positions(list)[r]], Samples(ops, name))
  {
    GrantIsAnswer(strategy, RunFrom(strategy, st, ops), name, now);
    ListOnlyAges(strategy, st, ops, name);
  }

  /** The instances that granted requests of the service were answered with. */
  function Answers(strategy: Strategy, st: State, ops: seq<Op>, name: string): seq<Instance> {
    if ops == [] then []
    else
      var front, op := ops[..|ops| - 1], ops[|ops| - 1];
      var rest, mid := Answers(strategy, st, front, name), RunFrom(strategy, st, front);
      if op.Get? && op.name == name && Answer(strategy, mid, name, op.now).Ok?
      then rest + [Answer(strategy, mid, name, op.now).value]
      else rest
  }

  function To(answers: seq<Instance>, id: string): nat {
    if answers == [] then 0
    else To(answers[..|answers| - 1], id) + if answers[|answers| - 1].id == id then 1 else 0
  }

  /** Answers and turns: the `m`-th answer is the instance of the registered list whose turn the `m`-th grant was. */
  ghost predicate AnswersTurns(answers: seq<Instance>, grants: seq<Grant>, list: seq<Instance>) {
    && |answers| == |grants|
    && forall m :: 0 <= m < |grants| ==>
         grants[m].index < |Positions(list)| && answers[m].id == list[Positions(list)[grants[m].index]].id
  }

  lemma {:induction false} AnswersFollowTurns(strategy: Strategy, st: State, ops: seq<Op>, name: string)
    requires Undisturbed(ops, name)
    ensures AnswersTurns(Answers(strategy, st, ops, name), Grants(strategy, st, ops, name), Instances(st, name))
  {
    hide Positions, Healthy, Select, Answer, AnswersTurns;
    if ops != [] {
      var front, op := ops[..|ops| - 1], ops[|ops| - 1];
      AnswersFollowTurns(strategy, st, front, name);
      if op.Get? && op.name == name && Answer(strategy, RunFrom(strategy, st, front), name, op.now).Ok? {
        GrantNamesInstance(strategy, st, front, name, op.now);
        var mid := RunFrom(strategy, st, front);
        AnswersTurnsNext(Answers(strategy, st, front, name), Grants(strategy, st, front, name), Instances(st, name),
                         Answer(strategy, mid, name, op.now).value,
                         Grant(Select(strategy, Counter(mid, name), List(mid, name)), |List(mid, name)|));
      }
    } else {
      NoAnswersTurns(Instances(st, name));
    }
  }

  lemma NoAnswersTurns(list: seq<Instance>)
    ensures AnswersTurns([], [], list)
  {}

  lemma AnswersTurnsNext(answers: seq<Instance>, grants: seq<Grant>, list: seq<Instance>, a: Instance, g: Grant)
    requires AnswersTurns(answers, grants, list)
    requires g.index < |Positions(list)| && a.id == list[Positions(list)[g.index]].id
    ensures AnswersTurns(answers + [a], grants + [g], list)
  {}

  lemma {:induction false} ToIsServed(answers: seq<Instance>, grants: seq<Grant>, list: seq<Instance>, r: nat)
    requires AnswersTurns(answers, grants, list) && r < |Positions(list)|
    requires OnlyOne(list, Positions(list)[r])
    ensures To(answers, list[Positions(list)[r]].id) == Served(grants, r)
  {
    hide Positions;
    if grants != [] {
      var last := |grants| - 1;
      ToIsServed(answers[..last], grants[..last], list, r);
      var x := grants[last].index;
      assert x < r ==> Positions(list)[x] < Positions(list)[r];
      assert r < x ==> Positions(list)[r] < Positions(list)[x];
    }
  }

  /** No other healthy instance of the list carries the id of the one at `i`. */
  predicate OnlyOne(list: seq<Instance>, i: nat)
    requires i < |list|
  {
    forall j :: 0 <= j < |list| && list[j].healthy && list[j].id == list[i].id ==> j == i
  }

  /** Fairness of `get_instance` itself: while no health report and no registration comes for the service, whatever its
      breaker does, every one of its healthy instances answers floor or ceiling of its share of the granted requests
      until the counter wraps, and no two are ever more than two apart across one wrap. */
  lemma RoundRobinIsFair(st: State, ops: seq<Op>, name: string, i: nat, j: nat)
    requires Undisturbed(ops, name) && i < |Instances(st, name)| && j < |Instances(st, name)|
    requires Instances(st, name)[i].healthy && Instances(st, name)[j].healthy
    requires OnlyOne(Instances(st, name), i) && OnlyOne(Instances(st, name), j)
    ensures var list, answers, c := Instances(st, name), Answers(RoundRobin, st, ops, name), Counter(st, name);
            var n, x, y := |Positions(list)|, To(answers, list[i].id), To(answers, list[j].id);
            && (c + |answers| <= WORD ==> |answers| / n <= x <= (|answers| + n - 1) / n)
            && (c + |answers| < 2 * WORD ==> -2 <= x - y <= 2)
  {
    hide Positions, Healthy, Grants, Served, Answers, To, Counter, AnswersTurns;
    var list, grants := Instances(st, name), Grants(RoundRobin, st, ops, name);
    var answers := Answers(RoundRobin, st, ops, name);
    var r :| 0 <= r < |Positions(list)| && Positions(list)[r] == i;
    var s :| 0 <= s < |Positions(list)| && Positions(list)[s] == j;
    AnswersFollowTurns(RoundRobin, st, ops, name);
    SameLength(answers, grants, list);
    ToIsServed(answers, grants, list, r);
    ToIsServed(answers, grants, list, s);
    TurnsAreFair(st, ops, name, r, s);
  }

  lemma SameLength(answers: seq<Instance>, grants: seq<Grant>, list: seq<Instance>)
    requires AnswersTurns(answers, grants, list)
    ensures |answers| == |grants|
  {}

  // ---------- a service that only succeeds ----------

  /** Nothing but requests and recorded successes happens to the service; others may do anything. */
  predicate Quiet(ops: seq<Op>, name: string) {
    forall i :: 0 <= i < |ops| && ops[i].name == name ==> ops[i].Get? || ops[i].Succeed?
  }

  ghost predicate NotOpen(st: State, name: string) {
    name in st.breakers ==> st.breakers[name].state != Open
  }

  ghost predicate Serving(st: State, name: string) {
    List(st, name) != [] && NotOpen(st, name)
  }

  lemma QuietStep(strategy: Strategy, st: State, op: Op, name: string)
    requires NotOpen(st, name) && (op.name == name ==> op.Get? || op.Succeed?)
    ensures NotOpen(Do(strategy, st, op), name)
  {
    BreakerStep(strategy, st, op, name);
  }

  lemma {:induction false} NeverOpens(strategy: Strategy, st: State, ops: seq<Op>, name: string)
    requires NotOpen(st, name) && Quiet(ops, name)
    ensures NotOpen(RunFrom(strategy, st, ops), name)
  {
    if ops != [] {
      NeverOpens(strategy, st, ops[..|ops| - 1], name);
      QuietStep(strategy, RunFrom(strategy, st, ops[..|ops| - 1]), ops[|ops| - 1], name);
    }
  }

  lemma ServingGrants(strategy: Strategy, st: State, name: string, now: nat)
    requires Serving(st, name)
    ensures Answer(strategy, st, name, now).Ok?
  {}

  /** A serving service to which nothing but requests and successes happens keeps serving: it grants every request. */
  lemma QuietRun(strategy: Strategy, st: State, ops: seq<Op>, name: string, now: nat)
    requires Serving(st, name) && Quiet(ops, name)
    ensures Serving(RunFrom(strategy, st, ops), name)
    ensures Answer(strategy, RunFrom(strategy, st, ops), name, now).Ok?
  {
    ListOnlyAges(strategy, st, ops, name);
    NeverOpens(strategy, st, ops, name);
    ServingGrants(strategy, RunFrom(strategy, st, ops), name, now);
  }

  // ---------- the other two strategies ----------

  lemma SameSelection(strategy: Strategy, c: nat, c': nat, list: seq<Instance>, list': seq<Instance>, samples: seq<nat>)
    requires strategy != RoundRobin && list != [] && AgedFrom(list, list', samples)
    ensures Select(strategy, c, list) == Select(strategy, c', list')
  {
    if strategy == LeastConnections {
      assert Connections(list) == Connections(list');
    } else {
      assert Times(list') == AverageAll(Times(list), samples);
      SelectionStaysPut(Times(list), samples);
    }
  }

  /** With the other two strategies, every granted request of an undisturbed run, whatever its breaker does meanwhile,
      goes to one and the same instance: connection counts are never updated, and recorded response times move all
      averages of a service alike. */
  lemma OneInstanceTakesAll(strategy: Strategy, st: State, ops: seq<Op>, name: string, now: nat)
    requires strategy != RoundRobin && Undisturbed(ops, name)
    ensures var list, st' := List(st, name), RunFrom(strategy, st, ops);
            var r := Answer(strategy, st', name, now);
            && (r.Ok? <==> list != [] && !Refused(st', name, now))
            && (r.Ok? ==> r.value == Aged(list[Select(strategy, 0, list)], Samples(ops, name)))
  {
    var st' := RunFrom(strategy, st, ops);
    ListOnlyAges(strategy, st, ops, name);
    if List(st, name) != [] {
      SameSelection(strategy, 0, Counter(st', name), List(st, name), List(st', name), Samples(ops, name));
    }
  }
}
