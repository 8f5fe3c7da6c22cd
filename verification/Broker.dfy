/**
 * The MQTT gateway: the broker's publishes are intercepted, some become calls to grains, and a grain's
 * reply is injected into the same broker, where it is intercepted like any other publish.
 */
module Broker {
  import opened Common
  import opened Domain
  import opened GrainModel
  import opened AccessLog
  import opened Claims

  /** The client id that injected messages carry. */
  const SENDER := "SenderClientId"

  datatype Payload = Text(text: string) | Reply(result: AccessResult)

  datatype Publish = Publish(clientId: string, topic: string, payload: Payload)

  /**
   * The library code the gateway relies on: reading a client id as a GUID in canonical form, and reading
   * a payload as a request whose token parses (`None` where it throws, which is caught and logged).
   */
  datatype Gateway = Gateway(guid: string -> Option<string>, token: Payload -> Option<seq<Claim>>)

  datatype Call = Call(id: string, requester: Option<string>, roles: seq<string>, employee: Option<string>)

  /** Publishes not yet intercepted and grain calls not yet served, in any order. */
  datatype Hub = Hub(sys: State, pending: seq<Publish>, calls: seq<Call>)

  datatype Event =
    | Arrive(publish: Publish)
    | Post(call: Call)
    | Intercept(index: nat)
    | Serve(index: nat, now: int)
    | Background(step: Step)

  function RemoveAt<T>(s: seq<T>, i: nat): seq<T>
    requires i < |s|
  {
    s[..i] + s[i + 1..]
  }

  /** The interceptor's decision about one publish. */
  function Intercepted(g: Gateway, p: Publish): Option<Call> {
    match g.guid(p.clientId)
    case None => None
    case Some(lockId) =>
      match g.token(p.payload)
      case None => None
      case Some(claims) =>
        var request := MqttRequest(lockId, claims, 0);
        Some(Call(lockId, request.requester, request.roles, request.employee))
  }

  function Injected(m: Message): Publish {
    Publish(SENDER, m.topic, Reply(m.result))
  }

  function InjectedAll(messages: seq<Message>): (publishes: seq<Publish>)
    ensures |publishes| == |messages|
    ensures forall i :: 0 <= i < |messages| ==>
              publishes[i] == Publish("SenderClientId", messages[i].topic, Reply(messages[i].result))
  {
    seq(|messages|, i requires 0 <= i < |messages| => Injected(messages[i]))
  }

  /** Serving a call activates the grain first if it is not alive. */
  function ServeSteps(s: State, c: Call, now: int): seq<Step> {
    (if c.id in s.live then [] else [Activate(c.id)]) + [Request(c.id, c.requester, c.roles, c.employee, now)]
  }

  predicate Possible(h: Hub, e: Event) {
    match e
    case Arrive(_) => true
    case Post(_) => true
    case Intercept(i) => i < |h.pending|
    case Serve(i, _) => i < |h.calls|
    case Background(step) => Enabled(h.sys, step) && !step.Request?
  }

  lemma {:induction false} ServeIsARun(s: State, c: Call, now: int)
    ensures IsRun(s, ServeSteps(s, c, now))
    ensures c.id in s.live ==>
      Exec(s, ServeSteps(s, c, now)) == Next(s, Request(c.id, c.requester, c.roles, c.employee, now))
  {
    var request := Request(c.id, c.requester, c.roles, c.employee, now);
    if c.id !in s.live {
      OneMoreStep(s, [], Activate(c.id));
      assert [] + [Activate(c.id)] == [Activate(c.id)];
      OneMoreStep(s, [Activate(c.id)], request);
    } else {
      OneMoreStep(s, [], request);
    }
  }

  /** The grain that serves a call, after any activation. */
  function ServingGrain(s: State, c: Call): GrainState {
    if c.id in s.live then s.live[c.id].grain else Activated(s.locks, c.id)
  }

  function React(g: Gateway, h: Hub, e: Event): Hub
    requires Possible(h, e)
  {
    match e
    case Arrive(p) => h.(pending := h.pending + [p])
    case Post(c) => h.(calls := h.calls + [c])
    case Intercept(i) =>
      var call := Intercepted(g, h.pending[i]);
      h.(pending := RemoveAt(h.pending, i), calls := h.calls + if call.Some? then [call.value] else [])
    case Serve(i, now) =>
      var c := h.calls[i];
      ServeIsARun(h.sys, c, now);
      var outgoing := Outgoing(ServingGrain(h.sys, c), c.roles);
      Hub(Exec(h.sys, ServeSteps(h.sys, c, now)),
          h.pending + InjectedAll(outgoing),
          RemoveAt(h.calls, i))
    case Background(step) => h.(sys := Next(h.sys, step))
  }

  predicate IsTrace(g: Gateway, h: Hub, trace: seq<Event>)
    decreases |trace|, 0
  {
    trace == [] || (IsTrace(g, h, Front(trace)) && Possible(After(g, h, Front(trace)), Last(trace)))
  }

  function After(g: Gateway, h: Hub, trace: seq<Event>): Hub
    requires IsTrace(g, h, trace)
    decreases |trace|, 1
  {
    if trace == [] then h else React(g, After(g, h, Front(trace)), Last(trace))
  }

  /** The system steps a trace takes, so that every theorem about runs applies to it. */
  function SystemSteps(g: Gateway, h: Hub, trace: seq<Event>): seq<Step>
    requires IsTrace(g, h, trace)
  {
    if trace == [] then []
    else
      var earlier := After(g, h, Front(trace));
      SystemSteps(g, h, Front(trace)) +
      match Last(trace)
      case Serve(i, now) => ServeSteps(earlier.sys, earlier.calls[i], now)
      case Background(step) => [step]
      case _ => []
  }

  lemma {:induction false} TracesAreRuns(g: Gateway, h: Hub, trace: seq<Event>)
    requires IsTrace(g, h, trace)
    ensures IsRun(h.sys, SystemSteps(g, h, trace))
    ensures Exec(h.sys, SystemSteps(g, h, trace)) == After(g, h, trace).sys
  {
    if trace != [] {
      TracesAreRuns(g, h, Front(trace));
      var earlier, steps := After(g, h, Front(trace)), SystemSteps(g, h, Front(trace));
      match Last(trace)
      case Serve(i, now) =>
        ServeIsARun(earlier.sys, earlier.calls[i], now);
        ExecConcat(h.sys, steps, ServeSteps(earlier.sys, earlier.calls[i], now));
      case Background(step) =>
        FrontOfAppend(steps, step);
      case _ =>
        assert steps + [] == steps;
    }
  }

  // ------------------------------------------------------------------------------------------
  // No call is dropped, repeated or invented

  /** The calls an event makes, and the call it takes to be served. */
  function CallsBy(g: Gateway, h: Hub, e: Event): seq<Call>
    requires Possible(h, e)
  {
    match e
    case Post(c) => [c]
    case Intercept(i) =>
      var call := Intercepted(g, h.pending[i]);
      if call.Some? then [call.value] else []
    case _ => []
  }

  function ServedBy(h: Hub, e: Event): seq<Call>
    requires Possible(h, e)
  {
    if e.Serve? then [h.calls[e.index]] else []
  }

  function CallsMade(g: Gateway, h: Hub, trace: seq<Event>): seq<Call>
    requires IsTrace(g, h, trace)
  {
    if trace == [] then [] else CallsMade(g, h, Front(trace)) + CallsBy(g, After(g, h, Front(trace)), Last(trace))
  }

  function CallsServed(g: Gateway, h: Hub, trace: seq<Event>): seq<Call>
    requires IsTrace(g, h, trace)
  {
    if trace == [] then [] else CallsServed(g, h, Front(trace)) + ServedBy(After(g, h, Front(trace)), Last(trace))
  }

  lemma RemovedAndRest<T>(s: seq<T>, i: nat)
    requires i < |s|
    ensures multiset(RemoveAt(s, i)) + multiset([s[i]]) == multiset(s)
  {
    assert s == s[..i] + ([s[i]] + s[i + 1..]);
  }

  lemma {:induction false} ReactKeepsCalls(g: Gateway, h: Hub, e: Event)
    requires Possible(h, e)
    ensures multiset(React(g, h, e).calls) + multiset(ServedBy(h, e)) == multiset(h.calls) + multiset(CallsBy(g, h, e))
  {
    match e
    case Post(c) => assert React(g, h, e).calls == h.calls + [c];
    case Intercept(i) => assert React(g, h, e).calls == h.calls + CallsBy(g, h, e);
    case Serve(i, _) => RemovedAndRest(h.calls, i);
    case _ =>
  }

  /** In every trace the calls served and the calls waiting are the calls there were and the calls made. */
  lemma {:induction false} CallsAreConserved(g: Gateway, h: Hub, trace: seq<Event>)
    requires IsTrace(g, h, trace)
    ensures multiset(After(g, h, trace).calls) + multiset(CallsServed(g, h, trace))
            == multiset(h.calls) + multiset(CallsMade(g, h, trace))
  {
    if trace != [] {
      var earlier, e := After(g, h, Front(trace)), Last(trace);
      CallsAreConserved(g, h, Front(trace));
      ReactKeepsCalls(g, earlier, e);
      Balance(After(g, h, trace).calls, CallsServed(g, h, Front(trace)), ServedBy(earlier, e),
              h.calls, CallsMade(g, h, Front(trace)), CallsBy(g, earlier, e), earlier.calls);
    }
  }

  // ------------------------------------------------------------------------------------------
  // No publish is dropped, repeated or invented

  function ArrivedBy(e: Event): seq<Publish> {
    if e.Arrive? then [e.publish] else []
  }

  function TakenBy(h: Hub, e: Event): seq<Publish>
    requires Possible(h, e)
  {
    if e.Intercept? then [h.pending[e.index]] else []
  }

  function Arrivals(trace: seq<Event>): seq<Publish> {
    if trace == [] then [] else Arrivals(Front(trace)) + ArrivedBy(Last(trace))
  }

  function Taken(g: Gateway, h: Hub, trace: seq<Event>): seq<Publish>
    requires IsTrace(g, h, trace)
  {
    if trace == [] then [] else Taken(g, h, Front(trace)) + TakenBy(After(g, h, Front(trace)), Last(trace))
  }

  /** The messages the system sent on the way from one state to another. */
  function SentSince(s: State, t: State): seq<Message>
    requires s.sent <= t.sent
  {
    t.sent[|s.sent|..]
  }

  lemma {:induction false} ReactKeepsPublishes(g: Gateway, h: Hub, e: Event)
    requires Possible(h, e)
    ensures h.sys.sent <= React(g, h, e).sys.sent
    ensures var next := React(g, h, e);
      multiset(next.pending) + multiset(TakenBy(h, e))
      == multiset(h.pending) + multiset(ArrivedBy(e) + InjectedAll(SentSince(h.sys, next.sys)))
  {
    var next := React(g, h, e);
    match e
    case Arrive(p) =>
      assert next.pending == h.pending + [p];
      assert ArrivedBy(e) + InjectedAll(SentSince(h.sys, next.sys)) == [p];
    case Intercept(i) =>
      RemovedAndRest(h.pending, i);
    case Serve(i, now) =>
      ServeSends(h.sys, h.calls[i], now);
      var outgoing := Outgoing(ServingGrain(h.sys, h.calls[i]), h.calls[i].roles);
      assert SentSince(h.sys, next.sys) == outgoing;
      assert next.pending == h.pending + InjectedAll(outgoing);
      assert ArrivedBy(e) + InjectedAll(outgoing) == InjectedAll(outgoing);
    case _ =>
      assert SentSince(h.sys, next.sys) == [];
  }

  lemma {:induction false} ServeSends(s: State, c: Call, now: int)
    ensures IsRun(s, ServeSteps(s, c, now))
    ensures Exec(s, ServeSteps(s, c, now)).sent == s.sent + Outgoing(ServingGrain(s, c), c.roles)
  {
    var request := Request(c.id, c.requester, c.roles, c.employee, now);
    if c.id in s.live {
      OneMoreStep(s, [], request);
    } else {
      OneMoreStep(s, [], Activate(c.id));
      assert [] + [Activate(c.id)] == [Activate(c.id)];
      OneMoreStep(s, [Activate(c.id)], request);
    }
  }

  lemma SentSinceGrows(s: State, t: State, u: State)
    requires s.sent <= t.sent <= u.sent
    ensures InjectedAll(SentSince(s, u)) == InjectedAll(SentSince(s, t)) + InjectedAll(SentSince(t, u))
  {
    assert SentSince(s, u) == SentSince(s, t) + SentSince(t, u);
  }

  /**
   * In every trace the publishes pending and those intercepted are those pending before, those that
   * arrived, and one reply for each message that the system sent on the way.
   */
  lemma {:induction false} PublishesAreConserved(g: Gateway, h: Hub, trace: seq<Event>)
    requires IsTrace(g, h, trace)
    ensures h.sys.sent <= After(g, h, trace).sys.sent
    ensures multiset(After(g, h, trace).pending) + multiset(Taken(g, h, trace))
            == multiset(h.pending) + multiset(Arrivals(trace)) +
               multiset(InjectedAll(SentSince(h.sys, After(g, h, trace).sys)))
  {
    if trace == [] {
      assert SentSince(h.sys, h.sys) == [];
    } else {
      var earlier, next, e := After(g, h, Front(trace)), After(g, h, trace), Last(trace);
      PublishesAreConserved(g, h, Front(trace));
      ReactKeepsPublishes(g, earlier, e);
      SentSinceGrows(h.sys, earlier.sys, next.sys);
      var before, now := SentSince(h.sys, earlier.sys), SentSince(earlier.sys, next.sys);
      BalanceOfThree(next.pending, Taken(g, h, Front(trace)), TakenBy(earlier, e), earlier.pending, h.pending,
                     Arrivals(Front(trace)), InjectedAll(before), ArrivedBy(e), InjectedAll(now));
    }
  }

  lemma BalanceOfThree<T>(a: seq<T>, x: seq<T>, dx: seq<T>, middle: seq<T>, b: seq<T>,
                          y: seq<T>, z: seq<T>, dy: seq<T>, dz: seq<T>)
    requires multiset(middle) + multiset(x) == multiset(b) + multiset(y) + multiset(z)
    requires multiset(a) + multiset(dx) == multiset(middle) + multiset(dy + dz)
    ensures multiset(a) + multiset(x + dx) == multiset(b) + multiset(y + dy) + multiset(z + dz)
  {
    assert multiset(x + dx) == multiset(x) + multiset(dx);
    assert multiset(y + dy) == multiset(y) + multiset(dy) && multiset(z + dz) == multiset(z) + multiset(dz);
    assert multiset(dy + dz) == multiset(dy) + multiset(dz);
    Regrouped(multiset(a), multiset(x), multiset(dx), multiset(middle), multiset(b),
              multiset(y), multiset(z), multiset(dy), multiset(dz));
  }

  lemma Regrouped<T>(a: multiset<T>, x: multiset<T>, dx: multiset<T>, middle: multiset<T>, b: multiset<T>,
                     y: multiset<T>, z: multiset<T>, dy: multiset<T>, dz: multiset<T>)
    requires middle + x == b + y + z && a + dx == middle + (dy + dz)
    ensures a + (x + dx) == b + (y + dy) + (z + dz)
  {
    assert a + (x + dx) == (a + dx) + x;
    assert (middle + (dy + dz)) + x == (middle + x) + (dy + dz);
  }

  /**
   * What serving a call does, whoever made it: if the lock is loaded, or is in the database and loaded now,
   * one entry, one message and one reply on its topic with the decision; for a missing lock none of them.
   */
  lemma {:induction false} ServedCallReplies(g: Gateway, h: Hub, j: nat, now: int)
    requires Sane(h.sys) && j < |h.calls|
    ensures var c, served := h.calls[j], React(g, h, Serve(j, now));
      var loaded := if c.id in h.sys.live then h.sys.live[c.id].grain.cached
                    else if c.id in h.sys.locks then Some(Lock(c.id, h.sys.locks[c.id])) else None;
      var known := if c.id in h.sys.live then h.sys.live[c.id].grain.accesses else [];
      c.id in served.sys.live && var list := served.sys.live[c.id].grain.accesses;
      if loaded == None then served.sys.sent == h.sys.sent && served.pending == h.pending && list == known
      else
        var result := if (set r | r in loaded.value.roles) * (set r | r in c.roles) != {} then Granted else Denied;
        && served.sys.sent == h.sys.sent + [Message(c.id, result)]
        && served.pending == h.pending + [Publish("SenderClientId", c.id, Reply(result))]
        && list == known + [Entry(c.id, now, result, c.requester, c.employee)]
  {
    var c := h.calls[j];
    ServeSends(h.sys, c, now);
    ServedDirectly(h.sys, c, now);
    if c.id in h.sys.live {
      assert FlushOk(h.sys, c.id, h.sys.live[c.id]);
    }
    var cached := ServingGrain(h.sys, c).cached;
    if cached.Some? {
      DecidedByCommonRole(cached.value, c.roles);
    } else {
      assert InjectedAll([]) == [];
    }
  }

  /** The requests among system steps, as calls. */
  function RequestsIn(steps: seq<Step>): seq<Call> {
    if steps == [] then []
    else
      RequestsIn(Front(steps)) +
      match Last(steps)
      case Request(id, requester, roles, employee, _) => [Call(id, requester, roles, employee)]
      case _ => []
  }

  lemma {:induction false} RequestsOfConcat(a: seq<Step>, b: seq<Step>)
    ensures RequestsIn(a + b) == RequestsIn(a) + RequestsIn(b)
  {
    if b == [] {
      assert a + b == a;
    } else {
      assert Front(a + b) == a + Front(b) && Last(a + b) == Last(b);
      RequestsOfConcat(a, Front(b));
    }
  }

  lemma {:induction false} RequestsOfServe(s: State, c: Call, now: int)
    ensures RequestsIn(ServeSteps(s, c, now)) == [c]
  {
    var request := Request(c.id, c.requester, c.roles, c.employee, now);
    var first := if c.id in s.live then [] else [Activate(c.id)];
    FrontOfAppend(first, request);
    assert first != [] ==> Front(first) == [];
    assert RequestsIn(first) == [];
  }

  /** The grains see exactly the served calls as requests, in the order they were served. */
  lemma {:induction false} RequestsAreTheServedCalls(g: Gateway, h: Hub, trace: seq<Event>)
    requires IsTrace(g, h, trace)
    ensures RequestsIn(SystemSteps(g, h, trace)) == CallsServed(g, h, trace)
  {
    if trace != [] {
      RequestsAreTheServedCalls(g, h, Front(trace));
      var earlier, steps := After(g, h, Front(trace)), SystemSteps(g, h, Front(trace));
      match Last(trace)
      case Serve(i, now) =>
        RequestsOfServe(earlier.sys, earlier.calls[i], now);
        RequestsOfConcat(steps, ServeSteps(earlier.sys, earlier.calls[i], now));
      case Background(step) =>
        FrontOfAppend(steps, step);
      case _ =>
        assert steps + [] == steps;
    }
  }

  /** The call that a readable token from a lock becomes. */
  function CallFor(id: string, token: seq<Claim>): Call {
    Call(id, FirstValue(token, UserData), Values(token, Role), None)
  }

  /** An intercepted publish has made its call. */
  lemma {:induction false} TakenPublishesCall(g: Gateway, h: Hub, trace: seq<Event>, p: Publish, call: Call)
    requires IsTrace(g, h, trace) && p in Taken(g, h, trace) && Intercepted(g, p) == Some(call)
    ensures call in CallsMade(g, h, trace)
  {
    if p in Taken(g, h, Front(trace)) {
      TakenPublishesCall(g, h, Front(trace), p, call);
    }
  }

  /**
   * From its arrival on, through any events, a publish from a lock with a readable token is pending, or
   * the call it became waits, or that call has been served.
   */
  lemma {:induction false} PublishIsServedOrWaits(g: Gateway, h: Hub, p: Publish, after: seq<Event>,
                                                  id: string, token: seq<Claim>)
    requires IsTrace(g, React(g, h, Arrive(p)), after)
    requires g.guid(p.clientId) == Some(id) && g.token(p.payload) == Some(token)
    ensures var arrived := React(g, h, Arrive(p));
      || p in After(g, arrived, after).pending
      || CallFor(id, token) in After(g, arrived, after).calls
      || CallFor(id, token) in CallsServed(g, arrived, after)
  {
    var arrived, call := React(g, h, Arrive(p)), CallFor(id, token);
    PublishesAreConserved(g, arrived, after);
    PresentIsKept(arrived.pending, Arrivals(after) + InjectedAll(SentSince(arrived.sys, After(g, arrived, after).sys)),
                  After(g, arrived, after).pending, Taken(g, arrived, after), p);
    if p in Taken(g, arrived, after) {
      TakenPublishesCall(g, arrived, after, p, call);
      CallsAreConserved(g, arrived, after);
      PresentIsKept(CallsMade(g, arrived, after), arrived.calls,
                    After(g, arrived, after).calls, CallsServed(g, arrived, after), call);
    }
  }

  lemma PresentIsKept<T>(a: seq<T>, b: seq<T>, c: seq<T>, d: seq<T>, x: T)
    requires x in a && multiset(c) + multiset(d) == multiset(a) + multiset(b)
    ensures x in c || x in d
  {
    assert x in multiset(a);
    assert x in multiset(c) + multiset(d);
  }

  /** Every call made comes from a post, or from an intercepted publish of a lock with a readable token. */
  lemma {:induction false} CallsComeFromOutside(g: Gateway, h: Hub, trace: seq<Event>, c: Call)
    requires IsTrace(g, h, trace) && c in CallsMade(g, h, trace)
    ensures Post(c) in trace || exists p ::
              p in Taken(g, h, trace) && g.guid(p.clientId) == Some(c.id) && g.token(p.payload).Some?
              && c == CallFor(c.id, g.token(p.payload).value)
  {
    if c in CallsMade(g, h, Front(trace)) {
      CallsComeFromOutside(g, h, Front(trace), c);
    } else if Last(trace).Intercept? {
      var p := After(g, h, Front(trace)).pending[Last(trace).index];
      assert p in Taken(g, h, trace);
    }
  }

  /**
   * However the call is interleaved with other events, when it is served its access is buffered in the
   * token user's name, decided by the roles of the token and of the loaded lock; the one new publish is
   * the lock's reply with the same result; and no other call is touched.
   */
  lemma {:induction false} PublishIsAnswered(g: Gateway, h: Hub, i: nat, between: seq<Event>, j: nat, now: int,
      id: string, token: seq<Claim>, lock: Lock, userId: string, roles: seq<string>)
    requires Sane(h.sys) && i < |h.pending| && IsTrace(g, React(g, h, Intercept(i)), between)
    requires g.guid(h.pending[i].clientId) == Some(id) && g.token(h.pending[i].payload) == Some(token)
    requires Carries(token, userId, roles)
    requires var reached := After(g, React(g, h, Intercept(i)), between);
      j < |reached.calls| && reached.calls[j] == CallFor(id, token)
      && ServingGrain(reached.sys, CallFor(id, token)).cached == Some(lock)
    ensures var result := if (set r | r in lock.roles) * (set r | r in roles) != {} then Granted else Denied;
      var reached := After(g, React(g, h, Intercept(i)), between);
      var known := ServingGrain(reached.sys, CallFor(id, token)).accesses;
      var served := React(g, reached, Serve(j, now));
      && lock.id == id && id in served.sys.live
      && served.calls == RemoveAt(reached.calls, j)
      && served.pending == reached.pending + [Publish(SENDER, id, Reply(result))]
      && served.sys.live[id].grain.accesses == known + [Entry(id, now, result, Some(userId), None)]
  {
    var waiting, call := React(g, h, Intercept(i)), CallFor(id, token);
    var reached := After(g, waiting, between);
    TracesAreRuns(g, waiting, between);
    RunIsSane(waiting.sys, SystemSteps(g, waiting, between));
    assert id in reached.sys.live ==> FlushOk(reached.sys, id, reached.sys.live[id]);
    ServedDirectly(reached.sys, call, now);
    FirstValueIsHead(token, UserData);
    DecidedByCommonRole(lock, roles);
  }

  /** Serving a call is one request to the grain, alive before or activated for it. */
  lemma {:induction false} ServedDirectly(s: State, c: Call, now: int)
    ensures IsRun(s, ServeSteps(s, c, now))
    ensures var t := Exec(s, ServeSteps(s, c, now));
      c.id in t.live && t.live[c.id].grain == Requested(ServingGrain(s, c), c.requester, c.roles, c.employee, now)
  {
    var request := Request(c.id, c.requester, c.roles, c.employee, now);
    if c.id in s.live {
      OneMoreStep(s, [], request);
    } else {
      OneMoreStep(s, [], Activate(c.id));
      assert [] + [Activate(c.id)] == [Activate(c.id)];
      OneMoreStep(s, [Activate(c.id)], request);
    }
  }

  // ------------------------------------------------------------------------------------------
  // The cascade is bounded

  /** The interceptor ignores every reply the gateway injects. */
  ghost predicate Guarded(g: Gateway) {
    forall topic, result :: Intercepted(g, Publish(SENDER, topic, Reply(result))) == None
  }

  /** The sender id of injected publishes is not a GUID: `SenderClientId` is not. */
  predicate SenderIsNoLock(g: Gateway) {
    g.guid(SENDER) == None
  }

  /** A reply has no token: it is deserialised without one, and reading a token from nothing throws. */
  ghost predicate RepliesHaveNoToken(g: Gateway) {
    forall result :: g.token(Reply(result)) == None
  }

  /** Two guards keep replies out, and each of them alone is enough; without both, some reply gets through. */
  lemma {:induction false} GuardedIff(g: Gateway)
    ensures Guarded(g) <==> SenderIsNoLock(g) || RepliesHaveNoToken(g)
  {
    if Guarded(g) && !SenderIsNoLock(g) {
      forall result
        ensures g.token(Reply(result)) == None
      {
        assert Intercepted(g, Publish(SENDER, "", Reply(result))) == None;
      }
    }
  }

  /** How many pending publishes will become calls. */
  function Callers(g: Gateway, pending: seq<Publish>): nat {
    if pending == [] then 0
    else (if Intercepted(g, pending[0]).Some? then 1 else 0) + Callers(g, pending[1..])
  }

  lemma {:induction false} CallersOfConcat(g: Gateway, a: seq<Publish>, b: seq<Publish>)
    ensures Callers(g, a + b) == Callers(g, a) + Callers(g, b)
  {
    if a == [] {
      assert a + b == b;
    } else {
      CallersOfConcat(g, a[1..], b);
      assert (a + b)[0] == a[0] && (a + b)[1..] == a[1..] + b;
    }
  }

  lemma {:induction false} CallersAfterRemoval(g: Gateway, pending: seq<Publish>, i: nat)
    requires i < |pending|
    ensures Callers(g, pending) ==
            Callers(g, RemoveAt(pending, i)) + (if Intercepted(g, pending[i]).Some? then 1 else 0)
  {
    assert pending == pending[..i] + ([pending[i]] + pending[i + 1..]);
    CallersOfConcat(g, pending[..i], [pending[i]] + pending[i + 1..]);
    CallersOfConcat(g, [pending[i]], pending[i + 1..]);
    CallersOfConcat(g, pending[..i], pending[i + 1..]);
  }

  /** Calls that are waiting or will follow from what is pending. */
  function Ahead(g: Gateway, h: Hub): nat {
    Callers(g, h.pending) + |h.calls|
  }

  /** Work left in the cascade: two more turns for each call ahead, one for each publish. */
  function Fuel(g: Gateway, h: Hub): nat {
    |h.pending| + 2 * Ahead(g, h)
  }

  function CountArrivals(trace: seq<Event>): nat {
    if trace == [] then 0 else CountArrivals(Front(trace)) + if Last(trace).Arrive? then 1 else 0
  }

  function CountPosts(trace: seq<Event>): nat {
    if trace == [] then 0 else CountPosts(Front(trace)) + if Last(trace).Post? then 1 else 0
  }

  function CountServed(trace: seq<Event>): nat {
    if trace == [] then 0 else CountServed(Front(trace)) + if Last(trace).Serve? then 1 else 0
  }

  function CountIntercepts(trace: seq<Event>): nat {
    if trace == [] then 0 else CountIntercepts(Front(trace)) + if Last(trace).Intercept? then 1 else 0
  }

  /** Every interception and every served call strictly decreases the fuel; only the outside adds any. */
  lemma {:induction false} EveryTurnBurnsFuel(g: Gateway, h: Hub, e: Event)
    requires Guarded(g) && Possible(h, e)
    ensures var next := React(g, h, e);
      && Ahead(g, next) + (if e.Serve? then 1 else 0)
         <= Ahead(g, h) + (if e.Arrive? || e.Post? then 1 else 0)
      && Fuel(g, next) + (if e.Serve? || e.Intercept? then 1 else 0)
         <= Fuel(g, h) + (if e.Arrive? then 3 else if e.Post? then 2 else 0)
      && |next.pending| + (if e.Intercept? then 1 else 0)
         <= |h.pending| + (if e.Arrive? || e.Serve? then 1 else 0)
  {
    match e
    case Arrive(p) => CallersOfConcat(g, h.pending, [p]);
    case Intercept(i) => CallersAfterRemoval(g, h.pending, i);
    case Serve(i, now) =>
      var added := React(g, h, e).pending[|h.pending|..];
      assert React(g, h, e).pending == h.pending + added;
      CallersOfConcat(g, h.pending, added);
      assert |added| <= 1;
      assert added != [] ==> added[1..] == [];
    case _ =>
  }

  /**
   * In every trace, in any order of interception and service, the replies never feed back: at most one
   * grain request per external publish or HTTP post, at most one injected publish per request, and the
   * whole cascade takes at most three turns for a publish and two for a post.
   */
  lemma {:induction false} CascadeIsBounded(g: Gateway, h: Hub, trace: seq<Event>)
    requires Guarded(g) && IsTrace(g, h, trace) && h.pending == [] && h.calls == []
    ensures CountServed(trace) + Ahead(g, After(g, h, trace)) <= CountArrivals(trace) + CountPosts(trace)
    ensures CountServed(trace) + CountIntercepts(trace) + Fuel(g, After(g, h, trace))
            <= 3 * CountArrivals(trace) + 2 * CountPosts(trace)
    ensures CountIntercepts(trace) + |After(g, h, trace).pending| <= CountArrivals(trace) + CountServed(trace)
  {
    if trace != [] {
      CascadeIsBounded(g, h, Front(trace));
      EveryTurnBurnsFuel(g, After(g, h, Front(trace)), Last(trace));
    }
  }

  lemma {:induction false} TraceFrom(g: Gateway, h: Hub, e: Event, rest: seq<Event>)
    requires Possible(h, e) && IsTrace(g, React(g, h, e), rest)
    ensures IsTrace(g, h, [e] + rest) && After(g, h, [e] + rest) == After(g, React(g, h, e), rest)
  {
    if rest == [] {
      assert [e] + rest == [] + [e];
      OneMoreEvent(g, h, [], e);
    } else {
      TraceFrom(g, h, e, Front(rest));
      assert [e] + rest == ([e] + Front(rest)) + [Last(rest)];
      OneMoreEvent(g, h, [e] + Front(rest), Last(rest));
    }
  }

  /** From every hub, intercepting and serving alone can finish all the work there is and all it causes. */
  lemma {:induction false} WorkCanBeFinished(g: Gateway, h: Hub) returns (trace: seq<Event>)
    requires Guarded(g)
    ensures IsTrace(g, h, trace) && forall e :: e in trace ==> e.Intercept? || e.Serve?
    ensures After(g, h, trace).pending == [] && After(g, h, trace).calls == []
    decreases Fuel(g, h)
  {
    trace := [];
    if h.pending != [] || h.calls != [] {
      var e := if h.pending != [] then Intercept(0) else Serve(0, 0);
      EveryTurnBurnsFuel(g, h, e);
      var rest := WorkCanBeFinished(g, React(g, h, e));
      TraceFrom(g, h, e, rest);
      trace := [e] + rest;
    }
  }

  /** A gateway with neither guard: the sender id is that of lock `id`, and every reply carries a readable token. */
  ghost predicate NeitherGuards(g: Gateway, id: string) {
    g.guid(SENDER) == Some(id) && forall result :: g.token(Reply(result)).Some?
  }

  /** One publish pending, a reply, and a live lock to receive it. */
  predicate Looping(h: Hub, id: string) {
    && id in h.sys.live && h.sys.live[id].grain.cached.Some? && h.calls == []
    && |h.pending| == 1 && h.pending[0].clientId == SENDER && h.pending[0].payload.Reply?
  }

  /**
   * What the guards prevent: in a gateway with neither of them - which the program's is not - a single
   * publish would keep the gateway busy for any number of rounds.
   */
  lemma {:induction false} UnguardedRepliesLoop(g: Gateway, h: Hub, id: string, k: nat) returns (trace: seq<Event>)
    requires NeitherGuards(g, id) && Looping(h, id)
    ensures IsTrace(g, h, trace) && Looping(After(g, h, trace), id)
    ensures CountServed(trace) == k && CountArrivals(trace) == 0 && CountPosts(trace) == 0
  {
    trace := [];
    if k > 0 {
      var done := UnguardedRepliesLoop(g, h, id, k - 1);
      OneRound(g, h, id, done);
      CountsOfRound(done);
      trace := done + [Intercept(0), Serve(0, 0)];
    }
  }

  lemma {:induction false} OneRound(g: Gateway, h: Hub, id: string, done: seq<Event>)
    requires NeitherGuards(g, id) && IsTrace(g, h, done) && Looping(After(g, h, done), id)
    ensures var more := done + [Intercept(0), Serve(0, 0)];
      IsTrace(g, h, more) && Looping(After(g, h, more), id)
  {
    var call := InterceptOne(g, After(g, h, done), id);
    OneMoreEvent(g, h, done, Intercept(0));
    ServeOne(g, After(g, h, done).sys, call);
    OneMoreEvent(g, h, done + [Intercept(0)], Serve(0, 0));
    assert done + [Intercept(0)] + [Serve(0, 0)] == done + [Intercept(0), Serve(0, 0)];
  }

  lemma {:induction false} OneMoreEvent(g: Gateway, h: Hub, trace: seq<Event>, e: Event)
    requires IsTrace(g, h, trace) && Possible(After(g, h, trace), e)
    ensures IsTrace(g, h, trace + [e]) && After(g, h, trace + [e]) == React(g, After(g, h, trace), e)
  {
    FrontOfAppend(trace, e);
  }

  lemma {:induction false} InterceptOne(g: Gateway, h: Hub, id: string) returns (call: Call)
    requires NeitherGuards(g, id) && Looping(h, id)
    ensures call.id == id && React(g, h, Intercept(0)) == Hub(h.sys, [], [call])
  {
    var payload := h.pending[0].payload;
    assert g.token(Reply(payload.result)).Some?;
    call := CallFor(id, g.token(payload).value);
    assert Intercepted(g, h.pending[0]) == Some(call);
    assert RemoveAt(h.pending, 0) == [] && [] + [call] == [call];
  }

  lemma {:induction false} ServeOne(g: Gateway, s: State, call: Call)
    requires call.id in s.live && s.live[call.id].grain.cached.Some?
    ensures Looping(React(g, Hub(s, [], [call]), Serve(0, 0)), call.id)
  {
    ServeIsARun(s, call, 0);
    var grain, served := s.live[call.id].grain, React(g, Hub(s, [], [call]), Serve(0, 0));
    var request := Request(call.id, call.requester, call.roles, call.employee, 0);
    assert served.sys == Next(s, request) && served.calls == [];
    assert served.pending == [] + InjectedAll(Outgoing(grain, call.roles));
  }

  lemma {:induction false} CountsOfRound(done: seq<Event>)
    ensures var more := done + [Intercept(0), Serve(0, 0)];
      && CountServed(more) == CountServed(done) + 1
      && CountArrivals(more) == CountArrivals(done) && CountPosts(more) == CountPosts(done)
  {
    FrontOfAppend(done, Intercept(0));
    FrontOfAppend(done + [Intercept(0)], Serve(0, 0));
    assert done + [Intercept(0)] + [Serve(0, 0)] == done + [Intercept(0), Serve(0, 0)];
  }
}
