/** The gateway's service registry (services/gateway/src/discovery.rs): instances, one circuit breaker and one
    round-robin counter per service name. `Do` and `Answer` give every operation on the registry's value; each
    method is one of them. `get_instance` and `record_success` release the breakers' lock before they take the
    instances'; they are one step here.
 */
module Registry {
  import opened Common
  import opened CircuitBreaking
  import opened LoadBalance

  type Word = x: nat | x < WORD witness 0

  datatype Instance = Instance(
    id: string, url: string, healthy: bool, lastCheck: Option<nat>, failureCount: nat,
    activeConnections: nat, avgResponseTimeMs: real)

  datatype Strategy = RoundRobin | LeastConnections | WeightedResponseTime

  datatype Why = CircuitIsOpen | NoHealthyInstances

  datatype GatewayError = ServiceUnavailable(why: Why) | NotFound

  datatype State = State(
    services: map<string, seq<Instance>>, breakers: map<string, Breaker>, counters: map<string, Word>)

  const EMPTY: State := State(map[], map[], map[])

  datatype Op =
    | Register(name: string, instance: Instance)
    | Get(name: string, now: nat)
    | Succeed(name: string, ms: nat)
    | Fail(name: string, now: nat)
    | SetHealth(name: string, id: string, healthy: bool, now: nat)

  function Instances(st: State, name: string): seq<Instance> {
    if name in st.services then st.services[name] else []
  }

  function Counter(st: State, name: string): Word {
    if name in st.counters then st.counters[name] else 0
  }

  /** The positions of the healthy instances: all of them, in order. */
  function Positions(list: seq<Instance>): (p: seq<nat>)
    ensures forall k :: 0 <= k < |p| ==> p[k] < |list| && list[p[k]].healthy
    ensures forall i :: 0 <= i < |list| && list[i].healthy ==> i in p
    ensures forall k, l :: 0 <= k < l < |p| ==> p[k] < p[l]
  {
    if list == [] then []
    else
      var front, last := list[..|list| - 1], |list| - 1;
      if list[last].healthy then Positions(front) + [last] else Positions(front)
  }

  /** `filter` keeps every healthy instance, once and in order. */
  function Healthy(list: seq<Instance>): (r: seq<Instance>)
    ensures |r| == |Positions(list)| && forall k :: 0 <= k < |r| ==> r[k] == list[Positions(list)[k]]
    ensures r == [] <==> forall i :: 0 <= i < |list| ==> !list[i].healthy
  {
    if list == [] then []
    else
      var front, last := list[..|list| - 1], list[|list| - 1];
      if last.healthy then Healthy(front) + [last] else Healthy(front)
  }

  function Connections(list: seq<Instance>): (r: seq<real>)
    ensures |r| == |list|
  {
    seq(|list|, i requires 0 <= i < |list| => list[i].activeConnections as real)
  }

  function Times(list: seq<Instance>): (r: seq<real>)
    ensures |r| == |list|
  {
    seq(|list|, i requires 0 <= i < |list| => list[i].avgResponseTimeMs)
  }

  /** The index selected among the healthy instances. */
  function Select(strategy: Strategy, counter: nat, healthy: seq<Instance>): (r: nat)
    requires healthy != []
    ensures r < |healthy|
  {
    match strategy
    case RoundRobin => Rem(counter, |healthy|)
    case LeastConnections => FirstMin(Connections(healthy))
    case WeightedResponseTime => FirstMin(Times(healthy))
  }

  function BreakerCall(st: State, name: string, e: Event): State {
    if name in st.breakers then st.(breakers := st.breakers[name := Step(DEFAULT_SETTINGS, st.breakers[name], e)]) else st
  }

  predicate Refused(st: State, name: string, now: nat) {
    name in st.breakers && !Allowed(DEFAULT_SETTINGS, st.breakers[name], now)
  }

  /** What `get_instance` returns. */
  function Answer(strategy: Strategy, st: State, name: string, now: nat): Result<Instance, GatewayError> {
    if Refused(st, name, now) then Err(ServiceUnavailable(CircuitIsOpen))
    else if name !in st.services then Err(NotFound)
    else if Healthy(st.services[name]) == [] then Err(ServiceUnavailable(NoHealthyInstances))
    else
      var healthy := Healthy(st.services[name]);
      Ok(healthy[Select(strategy, Counter(st, name), healthy)])
  }

  function Measured(i: Instance, ms: nat): Instance {
    i.(avgResponseTimeMs := Average(i.avgResponseTimeMs, ms))
  }

  function MeasuredAll(list: seq<Instance>, ms: nat): (r: seq<Instance>)
    ensures |r| == |list| && forall i :: 0 <= i < |r| ==> r[i] == Measured(list[i], ms)
  {
    seq(|list|, i requires 0 <= i < |list| => Measured(list[i], ms))
  }

  function Checked(i: Instance, healthy: bool, now: nat): Instance {
    i.(healthy := healthy, lastCheck := Some(now), failureCount := if healthy then 0 else i.failureCount + 1)
  }

  /** The position of the first instance with the id, or the number of instances. */
  function FirstWith(list: seq<Instance>, id: string): (k: nat)
    ensures k <= |list| && (k < |list| ==> list[k].id == id)
    ensures forall j :: 0 <= j < k ==> list[j].id != id
  {
    if list == [] || list[0].id == id then 0 else FirstWith(list[1..], id) + 1
  }

  /** A health report reaches the first instance with the id, and no other. */
  function CheckedFirst(list: seq<Instance>, id: string, healthy: bool, now: nat): (r: seq<Instance>)
    ensures |r| == |list|
  {
    var k := FirstWith(list, id);
    if k < |list| then list[k := Checked(list[k], healthy, now)] else list
  }

  function Do(strategy: Strategy, st: State, op: Op): State {
    match op
    case Register(name, instance) =>
      State(st.services[name := Instances(st, name) + [instance]],
            if name in st.breakers then st.breakers else st.breakers[name := FRESH],
            st.counters)
    case Get(name, now) =>
      var st1 := BreakerCall(st, name, Allow(now));
      if strategy == RoundRobin && Answer(strategy, st, name, now).Ok?
      then st1.(counters := st1.counters[name := NextCounter(WORD, Counter(st, name))])
      else st1
    case Succeed(name, ms) =>
      var st1 := BreakerCall(st, name, Success);
      if name in st.services then st1.(services := st1.services[name := MeasuredAll(st.services[name], ms)]) else st1
    case Fail(name, now) => BreakerCall(st, name, Failure(now))
    case SetHealth(name, id, healthy, now) =>
      if name in st.services
      then st.(services := st.services[name := CheckedFirst(st.services[name], id, healthy, now)]) else st
  }

  // ---------- the registry object ----------

  class ServiceRegistry {
    var services: map<string, seq<Instance>>
    var breakers: map<string, CircuitBreaker>
    var rrCounters: map<string, Word>
    const strategy: Strategy

    constructor (strategy: Strategy)
      ensures Valid() && Value() == EMPTY && this.strategy == strategy && breakers == map[]
    {
      this.strategy := strategy;
      services, breakers, rrCounters := map[], map[], map[];
    }

    /** Every service has its own breaker, with the default settings. */
    ghost predicate Valid()
      reads this, breakers.Values
    {
      && (forall n :: n in breakers ==> breakers[n].settings == DEFAULT_SETTINGS)
      && forall n, m :: n in breakers && m in breakers && n != m ==> breakers[n] != breakers[m]
    }

    ghost function Value(): State
      reads this, breakers.Values
    {
      State(services, map n | n in breakers :: breakers[n].Value(), rrCounters)
    }

    method Register(name: string, instance: Instance)
      requires Valid()
      modifies this
      ensures Valid() && fresh(breakers.Values - old(breakers.Values))
      ensures Value() == Do(strategy, old(Value()), Op.Register(name, instance))
    {
      Push(name, instance);
      if name !in breakers {
        AddBreaker(name);
      }
    }

    method Push(name: string, instance: Instance)
      requires Valid()
      modifies this`services
      ensures Valid()
      ensures Value() == old(Value()).(services := old(services)[name := Instances(old(Value()), name) + [instance]])
    {
      var list := if name in services then services[name] else [];
      services := services[name := list + [instance]];
    }

    method AddBreaker(name: string)
      requires Valid() && name !in breakers
      modifies this`breakers
      ensures Valid() && fresh(breakers.Values - old(breakers.Values))
      ensures Value() == old(Value()).(breakers := old(Value()).breakers[name := FRESH])
    {
      ghost var before := Value();
      var breaker := new CircuitBreaker(DEFAULT_SETTINGS);
      breakers := breakers[name := breaker];
      assert breakers.Values <= old(breakers).Values + {breaker};
      assert Value().breakers == before.breakers[name := FRESH];
    }

    /** The breaker's part of `get_instance`. */
    method Admit(name: string, now: nat) returns (allowed: bool)
      requires Valid()
      modifies breakers.Values
      ensures Valid()
      ensures allowed == !Refused(old(Value()), name, now)
      ensures Value() == BreakerCall(old(Value()), name, Allow(now))
    {
      allowed := true;
      if name in breakers {
        allowed := breakers[name].AllowRequest(now);
      }
    }

    method GetInstance(name: string, now: nat) returns (r: Result<Instance, GatewayError>)
      requires Valid()
      modifies this`rrCounters, breakers.Values
      ensures Valid()
      ensures r == Answer(strategy, old(Value()), name, now)
      ensures Value() == Do(strategy, old(Value()), Get(name, now))
    {
      var allowed := Admit(name, now);
      if !allowed {
        return Err(ServiceUnavailable(CircuitIsOpen));
      }
      if name !in services {
        return Err(NotFound);
      }
      var healthy := Healthy(services[name]);
      if healthy == [] {
        return Err(ServiceUnavailable(NoHealthyInstances));
      }
      var index := Choose(name, healthy);
      r := Ok(healthy[index]);
    }

    /** The strategy's part of `get_instance`. */
    method Choose(name: string, healthy: seq<Instance>) returns (index: nat)
      requires Valid() && healthy != []
      modifies this`rrCounters
      ensures Valid() && index == Select(strategy, Counter(old(Value()), name), healthy)
      ensures Value() == if strategy != RoundRobin then old(Value())
                         else old(Value()).(
                           counters := old(rrCounters)[name := NextCounter(WORD, Counter(old(Value()), name))])
    {
      match strategy
      case RoundRobin => index := SelectRoundRobin(name, |healthy|);
      case LeastConnections => index := FirstMin(Connections(healthy));
      case WeightedResponseTime => index := FirstMin(Times(healthy));
    }

    method SelectRoundRobin(name: string, n: nat) returns (index: nat)
      requires n > 0
      modifies this`rrCounters
      ensures var c := if name in old(rrCounters) then old(rrCounters)[name] else 0;
              index == Rem(c, n) < n && rrCounters == old(rrCounters)[name := NextCounter(WORD, c)]
    {
      var counter: Word := if name in rrCounters then rrCounters[name] else 0;
      QuoRemIs(counter, n);
      index := counter % n;
      rrCounters := rrCounters[name := if counter + 1 == WORD then 0 else counter + 1];
    }

    method RecordSuccess(name: string, ms: nat)
      requires Valid()
      modifies this`services, breakers.Values
      ensures Valid()
      ensures Value() == Do(strategy, old(Value()), Succeed(name, ms))
    {
      if name in breakers {
        breakers[name].RecordSuccess();
      }
      if name in services {
        var list := services[name];
        for i := 0 to |list|
          invariant |list| == |services[name]|
          invariant forall j :: 0 <= j < i ==> list[j] == Measured(services[name][j], ms)
          invariant forall j :: i <= j < |list| ==> list[j] == services[name][j]
        {
          list := list[i := list[i].(avgResponseTimeMs := Average(list[i].avgResponseTimeMs, ms))];
        }
        assert list == MeasuredAll(services[name], ms);
        services := services[name := list];
      }
    }

    method RecordFailure(name: string, now: nat)
      requires Valid()
      modifies breakers.Values
      ensures Valid()
      ensures Value() == Do(strategy, old(Value()), Fail(name, now))
    {
      if name in breakers {
        breakers[name].RecordFailure(now);
      }
    }

    method UpdateInstanceHealth(name: string, id: string, healthy: bool, now: nat)
      requires Valid()
      modifies this`services
      ensures Valid()
      ensures Value() == Do(strategy, old(Value()), SetHealth(name, id, healthy, now))
    {
      if name in services {
        var list := UpdateFirst(services[name], id, healthy, now);
        services := services[name := list];
      }
    }

    static method UpdateFirst(instances: seq<Instance>, id: string, healthy: bool, now: nat) returns (list: seq<Instance>)
      ensures list == CheckedFirst(instances, id, healthy, now)
    {
      list := instances;
      for i := 0 to |instances|
        invariant list == instances
        invariant forall j :: 0 <= j < i ==> list[j].id != id
      {
        if list[i].id == id {
          list := list[i := Checked(list[i], healthy, now)];
          return;
        }
      }
    }
  }
}
