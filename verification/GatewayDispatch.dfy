/**
  Two-layer dispatch (internal/api/middleware.go, internal/api/gateway.go): the auth layer
  resolves a request's host once and pins the outcome, the gateway layer proxies to the pin.
  Any number of requests run interleaved with registry and store changes.
*/
module GatewayDispatch {
  import opened Prelude
  import opened Rbac
  import opened TenantBoundary

  type Registry = map<string, Endpoint>

  datatype Request = Request(host: string, public: bool, token: Option<string>, verb: Verb)

  /**
    `authenticate` is token validation; `configured` whether any is set up; `stored` whether there is a store;
    `pinning` whether dispatch uses the pin, as the source does, or looks the host up again.
  */
  datatype Setup = Setup(
    configured: bool,
    stored: bool,
    pinning: bool,
    authenticate: string -> Option<Identity>,
    requests: map<nat, Request>)

  /** When the decision read the cluster row, the subject's assignments and the username's. */
  datatype Times = Times(cluster: nat, subject: nat, username: nat)

  const NEVER := Times(0, 0, 0)

  /** Where a request stands; while it is being authorized it carries the stores it has read from so far. */
  datatype Phase =
    | Arrived
    | Pinned(pin: Option<Endpoint>, pinTime: nat)
    | Checking(to: Endpoint, pinTime: nat, id: Identity)
    | ClusterRead(to: Endpoint, pinTime: nat, id: Identity, cluster: Store, at: nat)
    | SubjectRead(to: Endpoint, pinTime: nat, id: Identity, cluster: Store, at: nat, subject: Store, then_: nat)
    | Passed(pin: Option<Endpoint>, pinTime: nat, who: Option<Identity>, times: Times)
    | Refused
    | Proxied(to: Endpoint, pinTime: nat, who: Option<Identity>, times: Times)
    | Served(who: Option<Identity>)

  datatype State = State(registry: Registry, store: Store, time: nat, phases: map<nat, Phase>) {
    function Of(r: nat): Phase {
      if r in phases then phases[r] else Arrived
    }
  }

  /** The layers' steps for a request, each reading the registry or the store once; and changes to both. */
  datatype Op =
    | Resolve(r: nat)
    | Authenticate(r: nat)
    | ReadCluster(r: nat)
    | ReadSubject(r: nat)
    | Decide(r: nat)
    | Dispatch(r: nat, busy: bool)
    | SetRegistry(registry: Registry)
    | SetStore(store: Store)

  function Lookup(registry: Registry, host: string): Option<Endpoint> {
    if host in registry then Some(registry[host]) else None
  }

  /**
    What a decision sees that takes the cluster row from one store, the subject's assignments from a second
    and all others from a third.
  */
  function Mixed(cluster: Store, subject: Store, username: Store, id: Identity): Store {
    var mine, rest := subject.rows, username.rows - {id.subject};
    Store(if id.subject in mine then rest[id.subject := mine[id.subject]] else rest,
          (subject.failing * {id.subject}) + (username.failing - {id.subject}),
          cluster.clusters,
          cluster.getFails)
  }

  lemma MixedReads(cluster: Store, subject: Store, username: Store, id: Identity)
    ensures var m := Mixed(cluster, subject, username, id);
      && RowsOf(m, id.subject) == RowsOf(subject, id.subject)
      && (id.username.Some? && id.username.value != id.subject ==>
            RowsOf(m, id.username.value) == RowsOf(username, id.username.value))
      && m.clusters == cluster.clusters && m.getFails == cluster.getFails
  {
  }

  function Sees(u: Setup, cluster: Store, subject: Store, username: Store, id: Identity): Option<Store> {
    if u.stored then Some(Mixed(cluster, subject, username, id)) else None
  }

  predicate Allows(u: Setup, cluster: Store, subject: Store, username: Store, id: Identity, verb: Verb, e: Endpoint) {
    GatewayDecision(Sees(u, cluster, subject, username, id), Some(id), verb, GatewayTarget(e), e).Allows()
  }

  predicate Enabled(u: Setup, s: State, op: Op) {
    match op
    case Resolve(r) => r in u.requests && s.Of(r).Arrived?
    case Authenticate(r) => r in u.requests && s.Of(r).Pinned?
    case ReadCluster(r) => r in u.requests && s.Of(r).Checking?
    case ReadSubject(r) => r in u.requests && s.Of(r).ClusterRead?
    case Decide(r) => r in u.requests && s.Of(r).SubjectRead?
    case Dispatch(r, _) => r in u.requests && s.Of(r).Passed?
    case _ => true
  }

  /** RequireAuth after the lookup and before authorization. */
  function AfterToken(u: Setup, req: Request, p: Phase): Phase
    requires p.Pinned?
  {
    if !u.configured || (p.pin.None? && req.public) then Passed(p.pin, p.pinTime, None, NEVER)
    else if req.token.None? then Refused
    else
      var who := u.authenticate(req.token.value);
      if who.None? then Refused
      else if p.pin.None? then Passed(p.pin, p.pinTime, who, NEVER)
      else Checking(p.pin.value, p.pinTime, who.value)
  }

  predicate ForRequest(op: Op) {
    !op.SetRegistry? && !op.SetStore?
  }

  function NextPhase(u: Setup, s: State, op: Op): Phase
    requires Enabled(u, s, op) && ForRequest(op)
  {
    var req, p := u.requests[op.r], s.Of(op.r);
    match op
    case Resolve(_) => Pinned(Lookup(s.registry, req.host), s.time)
    case Authenticate(_) => AfterToken(u, req, p)
    case ReadCluster(_) => ClusterRead(p.to, p.pinTime, p.id, s.store, s.time)
    case ReadSubject(_) => SubjectRead(p.to, p.pinTime, p.id, p.cluster, p.at, s.store, s.time)
    case Decide(_) =>
      if Allows(u, p.cluster, p.subject, s.store, p.id, req.verb, p.to)
      then Passed(Some(p.to), p.pinTime, Some(p.id), Times(p.at, p.then_, s.time))
      else Refused
    case Dispatch(_, busy) =>
      var to := if u.pinning then p.pin else Lookup(s.registry, req.host);
      if to.None? then Served(p.who)
      else if busy then Refused
      else Proxied(to.value, p.pinTime, p.who, p.times)
  }

  function Next(u: Setup, s: State, op: Op): State
    requires Enabled(u, s, op)
  {
    match op
    case SetRegistry(registry) => s.(time := s.time + 1, registry := registry)
    case SetStore(store) => s.(time := s.time + 1, store := store)
    case _ => s.(time := s.time + 1, phases := s.phases[op.r := NextPhase(u, s, op)])
  }

  ghost predicate IsRun(u: Setup, run: seq<State>, ops: seq<Op>) {
    && |run| == |ops| + 1 && run[0].time == 0 && run[0].phases == map[]
    && forall k :: 0 <= k < |ops| ==> Enabled(u, run[k], ops[k]) && run[k + 1] == Next(u, run[k], ops[k])
  }

  // ------------------------------------------------------------------- safety

  /** The host resolved to `pin` at that time. */
  ghost predicate ResolvedAt(run: seq<State>, now: nat, t: nat, req: Request, pin: Option<Endpoint>)
    requires now < |run|
  {
    t < now && Lookup(run[t].registry, req.host) == pin
  }

  predicate Identified(u: Setup, req: Request, who: Option<Identity>) {
    who.Some? && req.token.Some? && who == u.authenticate(req.token.value)
  }

  /** The bearer of the request's token was allowed that endpoint on the stores of those times, in that order. */
  ghost predicate AuthorizedAt(
      u: Setup, run: seq<State>, now: nat, t: Times, pinTime: nat, req: Request, who: Option<Identity>, e: Endpoint)
    requires now < |run|
  {
    && pinTime < t.cluster < t.subject < t.username < now
    && Identified(u, req, who)
    && Allows(u, run[t.cluster].store, run[t.subject].store, run[t.username].store, who.value, req.verb, e)
  }

  ghost predicate PhaseOk(u: Setup, run: seq<State>, now: nat, req: Request, phase: Phase)
    requires now < |run|
  {
    match phase
    case Arrived => true
    case Refused => true
    case Pinned(pin, pinTime) => ResolvedAt(run, now, pinTime, req, pin)
    case Checking(to, pinTime, id) => ResolvedAt(run, now, pinTime, req, Some(to)) && Identified(u, req, Some(id))
    case ClusterRead(to, pinTime, id, cluster, at) =>
      && ResolvedAt(run, now, pinTime, req, Some(to)) && Identified(u, req, Some(id))
      && pinTime < at < now && cluster == run[at].store
    case SubjectRead(to, pinTime, id, cluster, at, subject, then_) =>
      && ResolvedAt(run, now, pinTime, req, Some(to)) && Identified(u, req, Some(id))
      && pinTime < at < then_ < now && cluster == run[at].store && subject == run[then_].store
    case Passed(pin, pinTime, who, times) =>
      && ResolvedAt(run, now, pinTime, req, pin)
      && (pin.Some? ==> AuthorizedAt(u, run, now, times, pinTime, req, who, pin.value))
      && (pin.None? ==> req.public || Identified(u, req, who))
    case Proxied(to, pinTime, who, times) =>
      && ResolvedAt(run, now, pinTime, req, Some(to))
      && AuthorizedAt(u, run, now, times, pinTime, req, who, to)
    case Served(who) => req.public || Identified(u, req, who)
  }

  ghost predicate Inv(u: Setup, run: seq<State>, now: nat)
    requires now < |run|
  {
    && run[now].time == now
    && forall r :: r in u.requests ==> PhaseOk(u, run, now, u.requests[r], run[now].Of(r))
  }

  lemma StaysOk(u: Setup, run: seq<State>, k: nat, req: Request, phase: Phase)
    requires k + 1 < |run| && PhaseOk(u, run, k, req, phase)
    ensures PhaseOk(u, run, k + 1, req, phase)
  {
    hide Allows, Lookup;
  }

  lemma AuthLayerOk(u: Setup, run: seq<State>, k: nat, op: Op)
    requires u.configured && k + 1 < |run| && run[k].time == k && Enabled(u, run[k], op)
    requires op.Resolve? || op.Authenticate? || op.ReadCluster? || op.ReadSubject?
    requires PhaseOk(u, run, k, u.requests[op.r], run[k].Of(op.r))
    ensures PhaseOk(u, run, k + 1, u.requests[op.r], NextPhase(u, run[k], op))
  {
    hide Allows, Lookup;
  }

  lemma DispatchOk(u: Setup, run: seq<State>, k: nat, op: Op)
    requires u.configured && u.pinning && k + 1 < |run| && run[k].time == k && Enabled(u, run[k], op)
    requires op.Decide? || op.Dispatch?
    requires PhaseOk(u, run, k, u.requests[op.r], run[k].Of(op.r))
    ensures PhaseOk(u, run, k + 1, u.requests[op.r], NextPhase(u, run[k], op))
  {
    hide Allows, Lookup;
  }

  lemma StepPhaseOk(u: Setup, run: seq<State>, ops: seq<Op>, k: nat, r: nat)
    requires u.configured && u.pinning && IsRun(u, run, ops) && k < |ops| && Inv(u, run, k) && r in u.requests
    ensures PhaseOk(u, run, k + 1, u.requests[r], run[k + 1].Of(r))
  {
    hide PhaseOk, NextPhase;
    var op, req := ops[k], u.requests[r];
    assert PhaseOk(u, run, k, req, run[k].Of(r));
    assert Enabled(u, run[k], op) && run[k + 1] == Next(u, run[k], op);
    if !ForRequest(op) || op.r != r {
      StaysOk(u, run, k, req, run[k].Of(r));
    } else if op.Decide? || op.Dispatch? {
      DispatchOk(u, run, k, op);
    } else {
      AuthLayerOk(u, run, k, op);
    }
  }

  lemma {:induction false} RunsKeepInv(u: Setup, run: seq<State>, ops: seq<Op>, k: nat)
    requires u.configured && u.pinning && IsRun(u, run, ops) && k < |run|
    ensures Inv(u, run, k)
  {
    hide PhaseOk;
    if k > 0 {
      RunsKeepInv(u, run, ops, k - 1);
      assert run[k] == Next(u, run[k - 1], ops[k - 1]);
      forall r | r in u.requests
        ensures PhaseOk(u, run, k, u.requests[r], run[k].Of(r))
      {
        StepPhaseOk(u, run, ops, k - 1, r);
      }
    } else {
      forall r | r in u.requests
        ensures PhaseOk(u, run, 0, u.requests[r], run[0].Of(r))
      {
        ArrivedIsOk(u, run, u.requests[r]);
      }
    }
  }

  lemma ArrivedIsOk(u: Setup, run: seq<State>, req: Request)
    requires run != []
    ensures PhaseOk(u, run, 0, req, Arrived)
  {
  }

  /**
    With auth configured, under any registry and store changes, a proxied request was authenticated, and
    authorized for exactly the endpoint it is sent to, which its host had resolved to. The cluster row and the
    assignments the decision was made on were each in the store at a moment after that, in the order read.
  */
  lemma ProxiedWasAuthorized(u: Setup, run: seq<State>, ops: seq<Op>, k: nat, r: nat)
    requires u.configured && u.pinning && IsRun(u, run, ops) && k < |run| && r in u.requests
    requires run[k].Of(r).Proxied?
    ensures var p := run[k].Of(r);
      && ResolvedAt(run, k, p.pinTime, u.requests[r], Some(p.to))
      && AuthorizedAt(u, run, k, p.times, p.pinTime, u.requests[r], p.who, p.to)
  {
    RunsKeepInv(u, run, ops, k);
    hide IsRun, ResolvedAt, AuthorizedAt;
    assert PhaseOk(u, run, k, u.requests[r], run[k].Of(r));
  }

  /** A request that carries no valid token is never proxied; it is served only as a public one. */
  lemma PublicNeverProxied(u: Setup, run: seq<State>, ops: seq<Op>, k: nat, r: nat)
    requires u.configured && u.pinning && IsRun(u, run, ops) && k < |run| && r in u.requests
    requires u.requests[r].token.None? || u.authenticate(u.requests[r].token.value).None?
    ensures !run[k].Of(r).Proxied?
    ensures run[k].Of(r).Served? ==> u.requests[r].public
  {
    RunsKeepInv(u, run, ops, k);
    hide IsRun, Allows, Lookup;
    assert PhaseOk(u, run, k, u.requests[r], run[k].Of(r));
  }

  /** A request passed on as control-plane traffic stays that, whatever is registered meanwhile. */
  lemma {:induction false} PassedIsNeverProxied(u: Setup, run: seq<State>, ops: seq<Op>, j: nat, k: nat, r: nat)
    requires u.pinning && IsRun(u, run, ops) && j <= k < |run| && r in u.requests
    requires run[j].Of(r).Passed? && run[j].Of(r).pin.None?
    ensures run[k].Of(r) == run[j].Of(r) || run[k].Of(r) == Served(run[j].Of(r).who)
    decreases k - j
  {
    hide Allows, AfterToken;
    if j < k {
      PassedIsNeverProxied(u, run, ops, j, k - 1, r);
      assert Enabled(u, run[k - 1], ops[k - 1]) && run[k] == Next(u, run[k - 1], ops[k - 1]);
    }
  }

  /** Looking the host up again instead: a public request without a token is proxied once its host is registered. */
  lemma LookingUpAgainProxiesPublic(authenticate: string -> Option<Identity>, e: Endpoint)
    ensures exists u: Setup, run: seq<State>, ops: seq<Op> ::
      && u.configured && !u.pinning && u.authenticate == authenticate && IsRun(u, run, ops)
      && 0 in u.requests && u.requests[0].token.None? && run[|ops|].Of(0).Proxied?
  {
    hide Allows;
    var u := Setup(true, false, false, authenticate, map[0 := Request("h", true, None, Read)]);
    var s0 := State(map[], Store(map[], {}, map[], false), 0, map[]);
    var ops := [Resolve(0), Authenticate(0), SetRegistry(map["h" := e]), Dispatch(0, false)];
    var s1 := Next(u, s0, ops[0]);
    assert s1.Of(0) == Pinned(None, 0);
    var s2 := Next(u, s1, ops[1]);
    assert s2.Of(0) == Passed(None, 0, None, NEVER);
    var s3 := Next(u, s2, ops[2]);
    assert s3.Of(0) == s2.Of(0);
    var s4 := Next(u, s3, ops[3]);
    var run := [s0, s1, s2, s3, s4];
    assert IsRun(u, run, ops);
    assert run[|ops|].Of(0).Proxied?;
  }

  // ----------------------------------------------------------------- progress

  ghost predicate Steps(u: Setup, run: seq<State>, ops: seq<Op>) {
    && |run| == |ops| + 1
    && forall k :: 0 <= k < |ops| ==> Enabled(u, run[k], ops[k]) && run[k + 1] == Next(u, run[k], ops[k])
  }

  /** Reads made of one store are that store. */
  lemma MixedSame(store: Store, id: Identity)
    ensures Mixed(store, store, store, id) == store
  {
    var m := Mixed(store, store, store, id);
    assert m.rows == store.rows && m.failing == store.failing;
  }

  /** The auth layer's steps for a request to a registered host. */
  function AuthSteps(r: nat): seq<Op> {
    [Resolve(r), Authenticate(r), ReadCluster(r), ReadSubject(r), Decide(r)]
  }

  /** The bearer of a valid token reaches the decision, which is the one of the store the three reads found. */
  lemma UndisturbedDecides(u: Setup, s: State, r: nat, id: Identity) returns (run: seq<State>)
    requires u.configured && r in u.requests && s.Of(r).Arrived? && u.requests[r].host in s.registry
    requires u.requests[r].token.Some? && u.authenticate(u.requests[r].token.value) == Some(id)
    ensures Steps(u, run, AuthSteps(r)) && run[0] == s && run[5].registry == s.registry
    ensures var e := s.registry[u.requests[r].host];
      var allows := GatewayDecision(if u.stored then Some(s.store) else None, Some(id), u.requests[r].verb,
                                    GatewayTarget(e), e).Allows();
      if allows then run[5].Of(r).Passed? && run[5].Of(r).pin == Some(e) && run[5].Of(r).who == Some(id)
      else run[5].Of(r) == Refused
  {
    MixedSame(s.store, id);
    hide Mixed, GatewayDecision;
    var e, t := s.registry[u.requests[r].host], s.time;
    var s1 := Next(u, s, Resolve(r));
    assert s1.Of(r) == Pinned(Some(e), t);
    var s2 := Next(u, s1, Authenticate(r));
    assert s2.Of(r) == Checking(e, t, id);
    var s3 := Next(u, s2, ReadCluster(r));
    assert s3.Of(r) == ClusterRead(e, t, id, s.store, t + 2);
    var s4 := Next(u, s3, ReadSubject(r));
    assert s4.Of(r) == SubjectRead(e, t, id, s.store, t + 2, s.store, t + 3);
    var s5 := Next(u, s4, Decide(r));
    run := [s, s1, s2, s3, s4, s5];
  }

  /** Passed with a pin, it goes to its pin unless the gateway is full, whatever the registry then holds. */
  lemma PassedIsProxied(u: Setup, s: State, r: nat, busy: bool)
    requires u.pinning && r in u.requests && s.Of(r).Passed? && s.Of(r).pin.Some?
    ensures Enabled(u, s, Dispatch(r, busy))
    ensures var end := Next(u, s, Dispatch(r, busy)).Of(r);
      if busy then end == Refused
      else end.Proxied? && end.to == s.Of(r).pin.value && end.who == s.Of(r).who
  {
  }

  /** Traffic of the server's own: public, or from the bearer of a valid token, it is served under that identity. */
  lemma OwnTrafficIsServed(u: Setup, s: State, r: nat, busy: bool) returns (run: seq<State>)
    requires u.configured && u.pinning && r in u.requests && s.Of(r).Arrived? && u.requests[r].host !in s.registry
    ensures Steps(u, run, [Resolve(r), Authenticate(r)]) && run[0] == s
    ensures var req, who := u.requests[r],
        if u.requests[r].token.Some? then u.authenticate(u.requests[r].token.value) else None;
      if req.public then run[2].Of(r).Passed? && run[2].Of(r).who.None?
      else if who.Some? then run[2].Of(r).Passed? && run[2].Of(r).who == who
      else run[2].Of(r) == Refused
    ensures run[2].Of(r).Passed? ==> Next(u, run[2], Dispatch(r, busy)).Of(r) == Served(run[2].Of(r).who)
  {
    hide Allows;
    var s1 := Next(u, s, Resolve(r));
    assert s1.Of(r) == Pinned(None, s.time);
    var s2 := Next(u, s1, Authenticate(r));
    run := [s, s1, s2];
  }
}
