/**
  Serve deployments (internal/api/services.go): the services-per-project cap and
  the serving ledger, over runs of whole handlers. The serving path releases its
  lock before the upsert, so its claims are for handlers run one at a time, with
  the cap and the serving allocations fixed.
*/
module Services {
  import opened Prelude
  import opened Resources

  /**
    `nominal` maps a project to its serving allocation, when it has one with a
    non-empty nominal; None marks a nominal that does not parse.
  */
  datatype Config = Config(servicesPerProject: int, nominal: map<string, Option<ResourceMap>>) {
    function Cap(): (n: nat)
      ensures n >= 1 && (servicesPerProject > 0 ==> n == servicesPerProject)
    {
      if servicesPerProject <= 0 then 1 else servicesPerProject
    }
  }

  datatype Outcome =
    | Accepted
    | ServiceLimit
    | BadNominal
    | BadSpec
    | BadStoredSpec
    | ServingQuotaExceeded
    | NoSuchService

  datatype Op = DeployOp(name: string, project: string, demand: Option<ResourceMap>) | DeleteOp(name: string)

  predicate Live(row: Row, project: string) {
    row.project == project && row.desired != Terminated
  }

  function LiveNames(store: Store, project: string): set<string> {
    set x | x in store && Live(store[x], project)
  }

  // ------------------------------------------------------------- semantics

  ghost function AdmitServing(cfg: Config, store: Store, name: string, project: string,
                              demand: Option<ResourceMap>): Outcome {
    if project !in cfg.nominal then Accepted
    else if cfg.nominal[project].None? then BadNominal
    else if demand.None? then BadSpec
    else if !Accountable(store - {name}, project) then BadStoredSpec
    else if forall k :: Usage(store - {name}, project, k) + At(demand.value, k) <= At(cfg.nominal[project].value, k)
    then Accepted
    else ServingQuotaExceeded
  }

  ghost function Decide(cfg: Config, store: Store, op: Op): Outcome {
    match op
    case DeployOp(name, project, demand) =>
      if |LiveNames(store - {name}, project)| >= cfg.Cap() then ServiceLimit
      else AdmitServing(cfg, store, name, project, demand)
    case DeleteOp(name) => if name in store then Accepted else NoSuchService
  }

  ghost function After(cfg: Config, store: Store, op: Op): Store {
    if Decide(cfg, store, op) != Accepted then store
    else
      match op
      case DeployOp(name, project, demand) => Upsert(store, name, project, demand)
      case DeleteOp(name) => SetDesired(store, name, Terminated)
  }

  /** What a deploy means for the service: only a suspended one is not started by it. */
  function Resumed(store: Store, name: string): Desired {
    if name in store && store[name].desired == Suspended then Suspended else Running
  }

  /** An accepted deploy writes what was asked, brings a terminated service back, and touches no other row. */
  lemma DeployRecords(cfg: Config, store: Store, name: string, project: string, demand: Option<ResourceMap>)
    requires Decide(cfg, store, DeployOp(name, project, demand)) == Accepted
    ensures var after := After(cfg, store, DeployOp(name, project, demand));
      && after.Keys == store.Keys + {name}
      && after[name] == Row(project, demand, Resumed(store, name))
      && forall x :: x in store && x != name ==> after[x] == store[x]
  {
  }

  lemma DeleteRecords(cfg: Config, store: Store, name: string)
    ensures var after := After(cfg, store, DeleteOp(name));
      && after.Keys == store.Keys
      && (name in store ==> after[name] == store[name].(desired := Terminated))
      && forall x :: x in store && x != name ==> after[x] == store[x]
  {
  }

  /** Accepted exactly when the project's other live services leave room and the demand fits beside them. */
  lemma DeployAcceptedIff(cfg: Config, store: Store, name: string, project: string, demand: Option<ResourceMap>)
    ensures Decide(cfg, store, DeployOp(name, project, demand)) == Accepted <==>
      && |set x | x in store && x != name && store[x].project == project && store[x].desired != Terminated|
         < (if cfg.servicesPerProject <= 0 then 1 else cfg.servicesPerProject)
      && (project in cfg.nominal ==>
            && cfg.nominal[project].Some? && demand.Some?
            && (forall x :: x in store && x != name && store[x].project == project && store[x].desired == Running ==>
                  store[x].demand.Some?)
            && forall k ::
                 Usage(store - {name}, project, k) + At(demand.value, k) <= At(cfg.nominal[project].value, k))
  {
    var live := set x | x in store && x != name && store[x].project == project && store[x].desired != Terminated;
    assert live == LiveNames(store - {name}, project);
    if project in cfg.nominal {
      var others := store - {name};
      assert forall x :: x in others <==> x in store && x != name;
      assert forall x :: x in others ==> others[x] == store[x];
    }
  }

  // ------------------------------------------------------------ the handlers

  /** The server's view of the services table. */
  class Server {
    const cfg: Config
    var rows: Store

    constructor (cfg: Config)
      ensures this.cfg == cfg && rows == map[]
    {
      this.cfg := cfg;
      rows := map[];
    }

    /** Counts the project's live rows under other names. */
    method CountLive(listing: seq<Stored>, name: string, project: string) returns (live: seq<string>)
      requires IsListing(listing, rows)
      ensures |live| == |LiveNames(rows - {name}, project)|
    {
      live := [];
      var i := 0;
      while i < |listing|
        invariant 0 <= i <= |listing|
        invariant forall k :: 0 <= k < |live| ==> exists j :: 0 <= j < i && listing[j].id == live[k]
        invariant Distinct(live)
        invariant forall j :: 0 <= j < |listing| ==>
          (listing[j].id in live <==> j < i && listing[j].id != name && Live(listing[j].row, project))
      {
        var c := listing[i];
        if !(c.row.project != project || c.id == name || c.row.desired == Terminated) {
          live := live + [c.id];
        }
        i := i + 1;
      }
      ghost var names := set x | x in live;
      SetOfDistinct(live);
      assert names == LiveNames(rows - {name}, project) by {
        forall x | x in rows
          ensures x in names <==> x in LiveNames(rows - {name}, project)
        {
          var j :| 0 <= j < |listing| && listing[j].id == x;
        }
      }
    }

    method Admit(name: string, project: string, demand: Option<ResourceMap>) returns (out: Outcome)
      ensures out == AdmitServing(cfg, rows, name, project, demand)
    {
      if project !in cfg.nominal {
        return Accepted;
      }
      if cfg.nominal[project].None? {
        return BadNominal;
      }
      var limit := cfg.nominal[project].value;
      if demand.None? {
        return BadSpec;
      }
      var listing := List(rows);
      InUseFailsClosed(listing, rows, project, name);
      var inUse := SumInUse(listing, project, name);
      if inUse.None? {
        return BadStoredSpec;
      }
      AdmissionDecides(listing, rows, project, name, demand.value, limit);
      if !AdmitQuota(limit, inUse.value, demand.value) {
        return ServingQuotaExceeded;
      }
      return Accepted;
    }

    method Deploy(name: string, project: string, demand: Option<ResourceMap>) returns (out: Outcome)
      modifies this
      ensures out == Decide(cfg, old(rows), DeployOp(name, project, demand))
      ensures rows == After(cfg, old(rows), DeployOp(name, project, demand))
      ensures rows - {name} == old(rows) - {name}
      ensures out == Accepted ==> name in rows && rows[name] == Row(project, demand, Resumed(old(rows), name))
      ensures out != Accepted ==> rows == old(rows)
    {
      var listing := List(rows);
      var live := CountLive(listing, name, project);
      if |live| >= cfg.Cap() {
        return ServiceLimit;
      }
      out := Admit(name, project, demand);
      if out == Accepted {
        rows := Upsert(rows, name, project, demand);
      }
    }

    method Delete(name: string) returns (out: Outcome)
      modifies this
      ensures out == Decide(cfg, old(rows), DeleteOp(name))
      ensures rows == After(cfg, old(rows), DeleteOp(name))
      ensures rows - {name} == old(rows) - {name}
      ensures out == Accepted <==> name in old(rows)
      ensures name in old(rows) ==> name in rows && rows[name] == old(rows)[name].(desired := Terminated)
    {
      if name !in rows {
        return NoSuchService;
      }
      if rows[name].desired != Terminated {
        rows := SetDesired(rows, name, Terminated);
      }
      return Accepted;
    }
  }

  lemma {:induction false} SetOfDistinct<T>(s: seq<T>)
    requires Distinct(s)
    ensures |set x | x in s| == |s|
  {
    if s != [] {
      var n := |s| - 1;
      SetOfDistinct(s[..n]);
      assert (set x | x in s) == (set x | x in s[..n]) + {s[n]};
    }
  }

  // ------------------------------------------------------------- whole runs

  ghost predicate Inv(cfg: Config, store: Store) {
    && (forall p :: |LiveNames(store, p)| <= cfg.Cap())
    && (forall p :: p in cfg.nominal && cfg.nominal[p].Some? ==> WithinLimit(store, p, cfg.nominal[p].value))
  }

  lemma DeployKeepsCap(cfg: Config, store: Store, name: string, project: string, demand: Option<ResourceMap>, p: string)
    requires |LiveNames(store, p)| <= cfg.Cap()
    requires Decide(cfg, store, DeployOp(name, project, demand)) == Accepted
    ensures |LiveNames(Upsert(store, name, project, demand), p)| <= cfg.Cap()
  {
    var after := Upsert(store, name, project, demand);
    if p == project {
      assert LiveNames(after, p) == LiveNames(store - {name}, p) + {name};
    } else {
      assert LiveNames(after, p) <= LiveNames(store, p);
      Smaller(LiveNames(after, p), LiveNames(store, p));
    }
  }

  lemma {:induction false} Smaller<T>(a: set<T>, b: set<T>)
    requires a <= b
    ensures |a| <= |b|
  {
    if a != {} {
      var x :| x in a;
      Smaller(a - {x}, b - {x});
    }
  }

  /** A redeploy that moves a service charges its new project and frees its old one. */
  lemma DeployKeepsLedger(cfg: Config, store: Store, name: string, project: string, demand: Option<ResourceMap>,
                          p: string)
    requires p in cfg.nominal && cfg.nominal[p].Some? && WithinLimit(store, p, cfg.nominal[p].value)
    requires Decide(cfg, store, DeployOp(name, project, demand)) == Accepted
    ensures WithinLimit(Upsert(store, name, project, demand), p, cfg.nominal[p].value)
  {
    var after := Upsert(store, name, project, demand);
    forall k
      ensures Usage(after, p, k) <= At(cfg.nominal[p].value, k)
    {
      if p == project {
        UsagePut(store, name, after[name], p, k);
      } else {
        assert ChargedWithin(after, store, p, k);
        UsageMono(after, store, p, k);
      }
    }
  }

  lemma DeleteKeeps(cfg: Config, store: Store, name: string)
    requires Inv(cfg, store)
    ensures Inv(cfg, SetDesired(store, name, Terminated))
  {
    var after := SetDesired(store, name, Terminated);
    forall p
      ensures |LiveNames(after, p)| <= cfg.Cap()
    {
      Smaller(LiveNames(after, p), LiveNames(store, p));
    }
    forall p, k | p in cfg.nominal && cfg.nominal[p].Some?
      ensures Usage(after, p, k) <= At(cfg.nominal[p].value, k)
    {
      assert ChargedWithin(after, store, p, k);
      UsageMono(after, store, p, k);
    }
  }

  lemma OpKeeps(cfg: Config, store: Store, op: Op)
    requires Inv(cfg, store)
    ensures Inv(cfg, After(cfg, store, op))
  {
    if Decide(cfg, store, op) == Accepted {
      match op
      case DeployOp(name, project, demand) =>
        forall p
          ensures |LiveNames(After(cfg, store, op), p)| <= cfg.Cap()
        {
          DeployKeepsCap(cfg, store, name, project, demand, p);
        }
        forall p | p in cfg.nominal && cfg.nominal[p].Some?
          ensures WithinLimit(After(cfg, store, op), p, cfg.nominal[p].value)
        {
          DeployKeepsLedger(cfg, store, name, project, demand, p);
        }
      case DeleteOp(name) => DeleteKeeps(cfg, store, name);
    }
  }

  ghost function AfterAll(cfg: Config, store: Store, ops: seq<Op>): Store
    decreases |ops|
  {
    if ops == [] then store else AfterAll(cfg, After(cfg, store, ops[0]), ops[1..])
  }

  /**
    Every run of deploys and deletes keeps each project's live services within
    the cap and its running demand within its serving nominal.
  */
  lemma {:induction false} RunsKeepCapAndLedger(cfg: Config, store: Store, ops: seq<Op>)
    requires Inv(cfg, store)
    ensures Inv(cfg, AfterAll(cfg, store, ops))
    decreases |ops|
  {
    if ops != [] {
      OpKeeps(cfg, store, ops[0]);
      RunsKeepCapAndLedger(cfg, After(cfg, store, ops[0]), ops[1..]);
    }
  }

  /** Deleting then redeploying under another name needs no wait: a terminated row counts for nothing. */
  lemma RedeployAfterDelete(cfg: Config, store: Store, old_: string, new_: string, project: string,
                            demand: Option<ResourceMap>)
    requires Inv(cfg, store) && old_ in store && Live(store[old_], project) && old_ != new_
    ensures Decide(cfg, After(cfg, store, DeleteOp(old_)), DeployOp(new_, project, demand)) != ServiceLimit
  {
    var after := SetDesired(store, old_, Terminated);
    assert old_ in LiveNames(store, project);
    assert LiveNames(after - {new_}, project) <= LiveNames(store, project) - {old_};
    Smaller(LiveNames(after - {new_}, project), LiveNames(store, project) - {old_});
  }
}
