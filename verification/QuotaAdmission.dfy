/**
  Cluster quota admission (internal/api/clusters.go): CreateCluster lists,
  admits and upserts under a per-project lock, while suspends, terminations,
  purges and the reaper change rows without it.

  A run is any interleaving of the steps below, for any number of requests and
  projects. The quotas are fixed. Errors (a store failure, a budget refusal)
  are the `Release` step, enabled whenever the lock is held.
*/
module QuotaAdmission {
  import opened Prelude
  import opened Resources

  type Quotas = map<string, ResourceMap>

  /** `Listed` and `Admitted` carry the rows as they were when the request listed them. */
  datatype Phase = Waiting | Locked | Listed(snap: Store) | Admitted(snap: Store) | Refused | Written | Done

  datatype Request = Request(id: string, project: string, demand: ResourceMap, phase: Phase)

  datatype System = System(store: Store, holder: map<string, nat>, requests: map<nat, Request>)

  datatype Action =
    | Begin(r: nat, id: string, project: string, demand: ResourceMap)
    | Lock(r: nat)
    | ListRows(r: nat)
    | Admit(r: nat, rows: seq<Stored>)
    | UpsertRow(r: nat)
    | Release(r: nat)
    | Flip(id: string, desired: Desired)  // terminate, suspend, reap
    | Purge(id: string)
    | Resume(id: string)

  predicate Holds(s: System, r: nat) {
    r in s.requests && s.requests[r].project in s.holder && s.holder[s.requests[r].project] == r
  }

  ghost predicate Enabled(q: Quotas, s: System, a: Action) {
    match a
    case Begin(r, _, _, _) => r !in s.requests
    case Lock(r) => r in s.requests && s.requests[r].phase == Waiting
      && s.requests[r].project in q && s.requests[r].project !in s.holder
    case ListRows(r) => Holds(s, r) && s.requests[r].phase == Locked
    case Admit(r, rows) => Holds(s, r) && s.requests[r].project in q
      && s.requests[r].phase.Listed? && IsListing(rows, s.requests[r].phase.snap)
    case UpsertRow(r) => r in s.requests &&
      if s.requests[r].project in q then Holds(s, r) && s.requests[r].phase.Admitted?
      else s.requests[r].phase == Waiting
    case Release(r) => Holds(s, r)
    case Flip(_, desired) => desired != Running
    case Purge(id) => id in s.store && s.store[id].desired == Terminated
    case Resume(id) => id in s.store && s.store[id].desired != Terminated
  }

  /** The quota decision on a listing: fail closed, then every resource must fit. */
  predicate Decision(rows: seq<Stored>, req: Request, limit: ResourceMap) {
    var inUse := InUse(rows, req.project, req.id);
    inUse.Some? && AdmitQuota(limit, inUse.value, req.demand)
  }

  /** The quota section's own loop and check, on the rows one List call answered. */
  method QuotaSection(rows: seq<Stored>, req: Request, limit: ResourceMap, ghost snap: Store) returns (ok: bool)
    requires IsListing(rows, snap)
    ensures ok == Decision(rows, req, limit)
    ensures ok <==>
      && Accountable(snap - {req.id}, req.project)
      && forall k :: Usage(snap - {req.id}, req.project, k) + At(req.demand, k) <= At(limit, k)
  {
    InUseFailsClosed(rows, snap, req.project, req.id);
    var inUse := SumInUse(rows, req.project, req.id);
    if inUse.None? {
      return false;
    }
    AdmissionDecides(rows, snap, req.project, req.id, req.demand, limit);
    return AdmitQuota(limit, inUse.value, req.demand);
  }

  function Move(s: System, r: nat, phase: Phase): System
    requires r in s.requests
  {
    s.(requests := s.requests[r := s.requests[r].(phase := phase)])
  }

  ghost function Apply(q: Quotas, s: System, a: Action): System
    requires Enabled(q, s, a)
  {
    match a
    case Begin(r, id, project, demand) =>
      s.(requests := s.requests[r := Request(id, project, demand, Waiting)])
    case Lock(r) => Move(s, r, Locked).(holder := s.holder[s.requests[r].project := r])
    case ListRows(r) => Move(s, r, Listed(s.store))
    case Admit(r, rows) =>
      var req := s.requests[r];
      Move(s, r, if Decision(rows, req, q[req.project]) then Admitted(req.phase.snap) else Refused)
    case UpsertRow(r) =>
      var req := s.requests[r];
      Move(s, r, Written).(store := Upsert(s.store, req.id, req.project, Some(req.demand)))
    case Release(r) => Move(s, r, Done).(holder := s.holder - {s.requests[r].project})
    case Flip(id, desired) => s.(store := SetDesired(s.store, id, desired))
    case Purge(id) => s.(store := s.store - {id})
    case Resume(id) => s.(store := SetDesired(s.store, id, Running))
  }

  // ------------------------------------------------------ what a step leaves

  /** The write leaves the requested row, running unless it was suspended, and every other row as it was. */
  lemma UpsertRecords(q: Quotas, s: System, r: nat)
    requires Enabled(q, s, UpsertRow(r))
    ensures var req, after := s.requests[r], Apply(q, s, UpsertRow(r)).store;
      && after.Keys == s.store.Keys + {req.id}
      && after[req.id].project == req.project && after[req.id].demand == Some(req.demand)
      && (after[req.id].desired == Suspended <==> req.id in s.store && s.store[req.id].desired == Suspended)
      && after[req.id].desired != Terminated
      && forall x :: x in s.store && x != req.id ==> after[x] == s.store[x]
  {
  }

  /** A flip, a resume or a purge changes the one row it names, and of that row the desired state alone. */
  lemma RowStepsRecord(q: Quotas, s: System, a: Action)
    requires (a.Flip? || a.Resume? || a.Purge?) && Enabled(q, s, a)
    ensures var after := Apply(q, s, a).store;
      && after - {a.id} == s.store - {a.id}
      && (a.Purge? ==> a.id !in after)
      && (!a.Purge? ==> after.Keys == s.store.Keys)
      && (!a.Purge? && a.id in s.store ==>
            after[a.id] == s.store[a.id].(desired := if a.Resume? then Running else a.desired))
  {
  }

  /** The creation whose lock is free and which nothing disturbs: lock, list, decide, write. */
  ghost function Undisturbed(q: Quotas, s: System, r: nat, rows: seq<Stored>): System
    requires Enabled(q, s, Lock(r)) && IsListing(rows, s.store)
  {
    Apply(q, Apply(q, Apply(q, s, Lock(r)), ListRows(r)), Admit(r, rows))
  }

  /** It reaches its write exactly when its demand fits beside the project's other running rows. */
  lemma UndisturbedIff(q: Quotas, s: System, r: nat, rows: seq<Stored>)
    requires Enabled(q, s, Lock(r)) && IsListing(rows, s.store)
    ensures var req, decided := s.requests[r], Undisturbed(q, s, r, rows);
      && decided.store == s.store
      && (Enabled(q, decided, UpsertRow(r)) <==>
            && Accountable(s.store - {req.id}, req.project)
            && forall k :: Usage(s.store - {req.id}, req.project, k) + At(req.demand, k) <= At(q[req.project], k))
  {
    var req := s.requests[r];
    InUseFailsClosed(rows, s.store, req.project, req.id);
    if InUse(rows, req.project, req.id).Some? {
      AdmissionDecides(rows, s.store, req.project, req.id, req.demand, q[req.project]);
    }
    var listed := Apply(q, Apply(q, s, Lock(r)), ListRows(r));
    assert Decision(rows, listed.requests[r], q[req.project]) <==> Decision(rows, req, q[req.project]);
  }

  // ------------------------------------------------------------- invariant

  /** The property: no project's running demand exceeds its quota, for any resource. */
  ghost predicate WithinQuotas(q: Quotas, store: Store) {
    forall p :: p in q ==> WithinLimit(store, p, q[p])
  }

  /**
    The stale list only over-counts: a row of the project that runs now, other
    than the request's own, is in the snapshot exactly as it is in the store.
  */
  ghost predicate OverCounts(store: Store, snap: Store, project: string, id: string) {
    forall x :: x in store && x != id && Counts(store[x], project) ==> x in snap && snap[x] == store[x]
  }

  ghost predicate RequestOk(q: Quotas, s: System, r: nat)
    requires r in s.requests
  {
    var req := s.requests[r];
    && (req.phase.Locked? || req.phase.Listed? || req.phase.Admitted? || req.phase.Refused? ==>
          req.project in q && Holds(s, r))
    && (req.phase.Listed? || req.phase.Admitted? ==> OverCounts(s.store, req.phase.snap, req.project, req.id))
    && (req.phase.Admitted? ==>
          forall k :: Usage(req.phase.snap - {req.id}, req.project, k) + At(req.demand, k) <= At(q[req.project], k))
  }

  ghost predicate LocksOk(q: Quotas, s: System) {
    forall p :: p in s.holder ==> p in q && s.holder[p] in s.requests && s.requests[s.holder[p]].project == p
  }

  ghost predicate Inv(q: Quotas, s: System) {
    && WithinQuotas(q, s.store)
    && LocksOk(q, s)
    && forall r :: r in s.requests ==> RequestOk(q, s, r)
  }

  // ----------------------------------------------------------- single steps

  /** A store step that adds no running row to any quota project keeps everything. */
  ghost predicate Shrinks(q: Quotas, before: Store, after: Store) {
    forall x, p :: p in q && x in after && Counts(after[x], p) ==> x in before && before[x] == after[x]
  }

  lemma ShrinkKeeps(q: Quotas, s: System, after: Store)
    requires Inv(q, s) && Shrinks(q, s.store, after)
    ensures Inv(q, s.(store := after))
  {
    forall p, k | p in q
      ensures Usage(after, p, k) <= At(q[p], k)
    {
      assert ChargedWithin(after, s.store, p, k);
      UsageMono(after, s.store, p, k);
    }
    forall r | r in s.requests
      ensures RequestOk(q, s.(store := after), r)
    {
      assert RequestOk(q, s, r);
    }
  }

  /** The heart of the protocol: the admitted sum still bounds the store when the row is written. */
  lemma WriteFits(q: Quotas, s: System, r: nat)
    requires Inv(q, s) && r in s.requests && s.requests[r].phase.Admitted?
    ensures var req := s.requests[r];
      WithinLimit(Upsert(s.store, req.id, req.project, Some(req.demand)), req.project, q[req.project])
  {
    assert RequestOk(q, s, r);
    var req := s.requests[r];
    var snap, p := req.phase.snap, req.project;
    var after := Upsert(s.store, req.id, p, Some(req.demand));
    forall k
      ensures Usage(after, p, k) <= At(q[p], k)
    {
      UsagePut(s.store, req.id, after[req.id], p, k);
      var now, then_ := s.store - {req.id}, snap - {req.id};
      assert ChargedWithin(now, then_, p, k) by {
        forall x | x in now
          ensures Charge(now[x], p, k) == 0.0 || (x in then_ && Charge(now[x], p, k) <= Charge(then_[x], p, k))
        {
          assert now[x] == s.store[x];
        }
      }
      UsageMono(now, then_, p, k);
    }
  }

  /** A write for `p` can only remove rows from every other project. */
  lemma WriteElsewhere(store: Store, id: string, p: string, demand: ResourceMap, other: string, limit: ResourceMap)
    requires other != p && WithinLimit(store, other, limit)
    ensures WithinLimit(Upsert(store, id, p, Some(demand)), other, limit)
  {
    var after := Upsert(store, id, p, Some(demand));
    forall k
      ensures Usage(after, other, k) <= At(limit, k)
    {
      assert ChargedWithin(after, store, other, k);
      UsageMono(after, store, other, k);
    }
  }

  lemma UpsertKeeps(q: Quotas, s: System, r: nat)
    requires Inv(q, s) && Enabled(q, s, UpsertRow(r))
    ensures Inv(q, Apply(q, s, UpsertRow(r)))
  {
    var req := s.requests[r];
    assert RequestOk(q, s, r);
    var after := Upsert(s.store, req.id, req.project, Some(req.demand));
    forall p | p in q
      ensures WithinLimit(after, p, q[p])
    {
      if p == req.project {
        WriteFits(q, s, r);
      } else {
        WriteElsewhere(s.store, req.id, req.project, req.demand, p, q[p]);
      }
    }
    var s' := Apply(q, s, UpsertRow(r));
    forall o | o in s'.requests
      ensures RequestOk(q, s', o)
    {
      assert RequestOk(q, s, o);
      if o != r && s.requests[o].project == req.project {
        assert s.requests[o].phase.Listed? || s.requests[o].phase.Admitted? ==> Holds(s, o) && Holds(s, r);
      }
    }
  }

  lemma AdmitKeeps(q: Quotas, s: System, r: nat, rows: seq<Stored>)
    requires Inv(q, s) && Enabled(q, s, Admit(r, rows))
    ensures Inv(q, Apply(q, s, Admit(r, rows)))
  {
    var req := s.requests[r];
    assert RequestOk(q, s, r);
    if InUse(rows, req.project, req.id).Some? {
      AdmissionDecides(rows, req.phase.snap, req.project, req.id, req.demand, q[req.project]);
    }
    OthersUnmoved(q, s, r, Apply(q, s, Admit(r, rows)).requests[r].phase);
  }

  /** Moving one request, with store and locks unchanged, leaves the others as they were. */
  lemma OthersUnmoved(q: Quotas, s: System, r: nat, phase: Phase)
    requires Inv(q, s) && r in s.requests && RequestOk(q, Move(s, r, phase), r)
    ensures Inv(q, Move(s, r, phase))
  {
    var s' := Move(s, r, phase);
    forall o | o in s'.requests
      ensures RequestOk(q, s', o)
    {
      if o != r {
        assert RequestOk(q, s, o);
      }
    }
  }

  lemma LockKeeps(q: Quotas, s: System, a: Action)
    requires Inv(q, s) && (a.Lock? || a.Release? || a.ListRows? || a.Begin?) && Enabled(q, s, a)
    ensures Inv(q, Apply(q, s, a))
  {
    var s' := Apply(q, s, a);
    forall o | o in s'.requests
      ensures RequestOk(q, s', o)
    {
      if o in s.requests {
        assert RequestOk(q, s, o);
      }
    }
  }

  lemma StepKeeps(q: Quotas, s: System, a: Action)
    requires Inv(q, s) && Enabled(q, s, a) && !a.Resume?
    ensures Inv(q, Apply(q, s, a))
  {
    match a
    case UpsertRow(r) => UpsertKeeps(q, s, r);
    case Admit(r, rows) => AdmitKeeps(q, s, r, rows);
    case Flip(id, desired) => ShrinkKeeps(q, s, SetDesired(s.store, id, desired));
    case Purge(id) => ShrinkKeeps(q, s, s.store - {id});
    case _ => LockKeeps(q, s, a);
  }

  // ------------------------------------------------------------- whole runs

  ghost predicate Run(q: Quotas, states: seq<System>, actions: seq<Action>) {
    && |states| == |actions| + 1
    && forall i :: 0 <= i < |actions| ==>
         Enabled(q, states[i], actions[i]) && states[i + 1] == Apply(q, states[i], actions[i])
  }

  /**
    In every interleaving of any number of creates, with terminations, suspends
    and purges in between and no resume, no project ever exceeds its quota.
  */
  lemma {:induction false} NeverOverQuota(q: Quotas, states: seq<System>, actions: seq<Action>, n: nat)
    requires Run(q, states, actions) && n <= |actions|
    requires WithinQuotas(q, states[0].store) && states[0].holder == map[] && states[0].requests == map[]
    requires forall i :: 0 <= i < |actions| ==> !actions[i].Resume?
    ensures Inv(q, states[n]) && WithinQuotas(q, states[n].store)
  {
    if n > 0 {
      NeverOverQuota(q, states, actions, n - 1);
      StepKeeps(q, states[n - 1], actions[n - 1]);
    }
  }

  // ---------------------------------------------------------------- resume

  /** Resume makes no quota check: it keeps the quotas exactly when the row's own demand still fits. */
  lemma ResumeKeepsIff(q: Quotas, store: Store, id: string)
    requires WithinQuotas(q, store) && id in store && store[id].desired == Suspended
    ensures WithinQuotas(q, SetDesired(store, id, Running)) <==>
      var row := store[id];
      row.project in q && row.demand.Some? ==>
        forall k :: Usage(store, row.project, k) + At(row.demand.value, k) <= At(q[row.project], k)
  {
    var row, after := store[id], SetDesired(store, id, Running);
    forall p, k
      ensures Usage(after, p, k) == Usage(store, p, k) + Charge(after[id], p, k)
    {
      UsagePut(store, id, after[id], p, k);
      UsageSplit(store, id, p, k);
    }
    if WithinQuotas(q, after) && row.project in q && row.demand.Some? {
      assert WithinLimit(after, row.project, q[row.project]);
    }
    if row.project in q && row.demand.Some? ==>
        forall k :: Usage(store, row.project, k) + At(row.demand.value, k) <= At(q[row.project], k) {
      forall p | p in q
        ensures WithinLimit(after, p, q[p])
      {
        assert WithinLimit(store, p, q[p]);
      }
    }
  }

  const ONE_CPU: ResourceMap := map["cpu" := 1.0]

  const SUSPENDED := Row("p", Some(ONE_CPU), Suspended)
  const RUNNING := Row("p", Some(ONE_CPU), Running)

  /** Suspend the only cluster, create a second in its place, resume the first. */
  function Detour(i: nat): Action {
    match i
    case 0 => Flip("a", Suspended)
    case 1 => Begin(0, "b", "p", ONE_CPU)
    case 2 => Lock(0)
    case 3 => ListRows(0)
    case 4 => Admit(0, [Stored("a", SUSPENDED)])
    case 5 => UpsertRow(0)
    case 6 => Release(0)
    case _ => Resume("a")
  }

  function DetourAt(i: nat): System {
    var alone, both: Store := map["a" := SUSPENDED], map["a" := SUSPENDED, "b" := RUNNING];
    match i
    case 0 => System(map["a" := RUNNING], map[], map[])
    case 1 => System(alone, map[], map[])
    case 2 => System(alone, map[], Create(Waiting))
    case 3 => System(alone, map["p" := 0], Create(Locked))
    case 4 => System(alone, map["p" := 0], Create(Listed(alone)))
    case 5 => System(alone, map["p" := 0], Create(Admitted(alone)))
    case 6 => System(both, map["p" := 0], Create(Written))
    case 7 => System(both, map[], Create(Done))
    case _ => System(map["a" := RUNNING, "b" := RUNNING], map[], Create(Done))
  }

  function Create(phase: Phase): map<nat, Request> {
    map[0 := Request("b", "p", ONE_CPU, phase)]
  }

  lemma DetourAdmits()
    ensures var rows := [Stored("a", SUSPENDED)];
      && IsListing(rows, map["a" := SUSPENDED])
      && Decision(rows, Request("b", "p", ONE_CPU, Listed(map["a" := SUSPENDED])), ONE_CPU)
  {
    var rows := [Stored("a", SUSPENDED)];
    assert rows[..0] == [];
    assert InUse(rows, "p", "b") == Some(map[]);
    assert forall k :: k in Add(map[], ONE_CPU) ==> Add(map[], ONE_CPU)[k] == At(Add(map[], ONE_CPU), k);
    assert rows[0].id == "a";
  }

  ghost predicate IsStep(q: Quotas, i: nat) {
    Enabled(q, DetourAt(i), Detour(i)) && DetourAt(i + 1) == Apply(q, DetourAt(i), Detour(i))
  }

  lemma DetourLists(q: Quotas, i: nat)
    requires q == map["p" := ONE_CPU] && i < 4
    ensures IsStep(q, i)
  {
    if i == 0 {
      assert Apply(q, DetourAt(0), Detour(0)).store == map["a" := SUSPENDED];
    }
  }

  lemma DetourWrites(q: Quotas, i: nat)
    requires q == map["p" := ONE_CPU] && i in {4, 5}
    ensures IsStep(q, i)
  {
    DetourAdmits();
    hide Decision, IsListing;
    if i == 5 {
      assert Apply(q, DetourAt(5), Detour(5)).store == map["a" := SUSPENDED, "b" := RUNNING];
    }
  }

  lemma DetourResumes(q: Quotas, i: nat)
    requires q == map["p" := ONE_CPU] && i in {6, 7}
    ensures IsStep(q, i)
  {
    if i == 6 {
      assert Apply(q, DetourAt(6), Detour(6)).holder == map[];
    } else {
      assert Apply(q, DetourAt(7), Detour(7)).store == map["a" := RUNNING, "b" := RUNNING];
    }
  }

  lemma TwoRowsUsage(a: Row, b: Row, p: string, k: string)
    ensures Usage(map["a" := a, "b" := b], p, k) == Charge(a, p, k) + Charge(b, p, k)
  {
    var store: Store := map["a" := a, "b" := b];
    UsageSplit(store, "a", p, k);
    assert store - {"a"} == map["b" := b];
    UsageSplit(map["b" := b], "b", p, k);
    assert map["b" := b] - {"b"} == map[];
  }

  lemma OneRowUsage(a: Row, p: string, k: string)
    ensures Usage(map["a" := a], p, k) == Charge(a, p, k)
  {
    UsageSplit(map["a" := a], "a", p, k);
    assert map["a" := a] - {"a"} == map[];
  }

  /** A run of the protocol from within quota, whose only resume step is its last, ends over quota. */
  lemma ResumeOvercommits()
    ensures exists q: Quotas, states: seq<System>, actions: seq<Action> ::
      && Run(q, states, actions) && actions != []
      && WithinQuotas(q, states[0].store) && states[0].holder == map[] && states[0].requests == map[]
      && (forall i :: 0 <= i < |actions| - 1 ==> !actions[i].Resume?)
      && !WithinQuotas(q, states[|actions|].store)
  {
    var q: Quotas := map["p" := ONE_CPU];
    var states, actions := seq(9, i requires i >= 0 => DetourAt(i)), seq(8, i requires i >= 0 => Detour(i));
    hide Decision, IsListing;
    forall i | 0 <= i < 8
      ensures Enabled(q, states[i], actions[i]) && states[i + 1] == Apply(q, states[i], actions[i])
    {
      if i < 4 {
        DetourLists(q, i);
      } else if i < 6 {
        DetourWrites(q, i);
      } else {
        DetourResumes(q, i);
      }
    }
    hide Enabled, Apply;
    assert Run(q, states, actions);
    DetourEnds(q);
    assert forall i :: 0 <= i < 7 ==> !actions[i].Resume?;
  }

  lemma DetourEnds(q: Quotas)
    requires q == map["p" := ONE_CPU]
    ensures WithinQuotas(q, DetourAt(0).store) && !WithinQuotas(q, DetourAt(8).store)
  {
    hide Usage;
    forall k
      ensures Usage(DetourAt(0).store, "p", k) <= At(q["p"], k)
    {
      OneRowUsage(RUNNING, "p", k);
    }
    TwoRowsUsage(RUNNING, RUNNING, "p", "cpu");
    assert !WithinLimit(DetourAt(8).store, "p", q["p"]);
  }
}
