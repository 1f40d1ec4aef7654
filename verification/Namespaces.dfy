/**
  Tenant namespaces (internal/api/namespaces.go, internal/api/pools.go): the project to
  namespace map and the pool allocations that must agree with it. Handlers run one at a
  time and tenant namespaces are on. Deleting a pool leaves its allocations in the store,
  as every backend does.
*/
module Namespaces {
  import opened Prelude
  import Storage

  /** Allocations are keyed by pool and project; the value is the namespace. */
  datatype State = State(pools: set<string>, allocs: map<(string, string), string>, namespaces: map<string, string>)

  datatype Op =
    | EditMap(m: map<string, string>)
    | PutAllocation(pool: string, project: string, ns: string, isolated: bool)
    | DeleteAllocation(pool: string, project: string)
    | CreatePool(pool: string)
    | DeletePool(pool: string)

  predicate NamespaceName(s: string) {
    Storage.K8sName(s) && '.' !in s && |s| <= 63
  }

  predicate MapOk(m: map<string, string>) {
    forall p :: p in m ==> p != "" && p != "*" && NamespaceName(m[p])
  }

  predicate KeyAgrees(allocs: map<(string, string), string>, m: map<string, string>, key: (string, string))
    requires key in allocs
  {
    key.1 in m ==> allocs[key] == m[key.1]
  }

  /** Every allocation of a listed pool, for a mapped project, is in the mapped namespace. */
  predicate AgreeOn(pools: set<string>, allocs: map<(string, string), string>, m: map<string, string>) {
    forall key :: key in allocs && key.0 in pools ==> KeyAgrees(allocs, m, key)
  }

  predicate Agree(s: State) {
    AgreeOn(s.pools, s.allocs, s.namespaces)
  }

  predicate Accepts(s: State, op: Op) {
    match op
    case EditMap(m) => MapOk(m) && AgreeOn(s.pools, s.allocs, m)
    case PutAllocation(pool, project, ns, isolated) =>
      pool in s.pools && isolated && (project in s.namespaces ==> ns == s.namespaces[project])
    case DeleteAllocation(pool, project) => (pool, project) in s.allocs
    case CreatePool(_) => true
    case DeletePool(pool) => pool in s.pools
  }

  function After(s: State, op: Op): State {
    if !Accepts(s, op) then s
    else
      match op
      case EditMap(m) => s.(namespaces := m)
      case PutAllocation(pool, project, ns, _) => s.(allocs := s.allocs[(pool, project) := ns])
      case DeleteAllocation(pool, project) => s.(allocs := s.allocs - {(pool, project)})
      case CreatePool(pool) => s.(pools := s.pools + {pool})
      case DeletePool(pool) => s.(pools := s.pools - {pool})
  }

  /** From agreement, an edit of either side is accepted exactly when it is well formed and agreement would hold. */
  lemma AcceptsIff(s: State, op: Op)
    requires Agree(s)
    ensures op.EditMap? ==>
      (Accepts(s, op) <==>
        && (forall p :: p in op.m ==>
              && p != "" && p != "*" && '.' !in op.m[p] && Storage.PlainName(op.m[p], 63))
        && Agree(s.(namespaces := op.m)))
    ensures op.PutAllocation? ==>
      (Accepts(s, op) <==>
        && op.pool in s.pools && op.isolated
        && Agree(s.(allocs := s.allocs[(op.pool, op.project) := op.ns])))
  {
    if op.EditMap? {
      forall p | p in op.m
        ensures NamespaceName(op.m[p]) <==> '.' !in op.m[p] && Storage.PlainName(op.m[p], 63)
      {
        Storage.PlainNames(op.m[p]);
      }
    }
    if op.PutAllocation? {
      var key := (op.pool, op.project);
      var put := s.allocs[key := op.ns];
      assert key in put && put[key] == op.ns;
      if Accepts(s, op) {
        forall k | k in put && k.0 in s.pools
          ensures KeyAgrees(put, s.namespaces, k)
        {
          assert k != key ==> KeyAgrees(s.allocs, s.namespaces, k);
        }
      } else if op.pool in s.pools && op.isolated {
        assert !KeyAgrees(put, s.namespaces, key);
      }
    }
  }

  /** A refused request changes nothing; an accepted one is found in the state, and nothing else has changed. */
  lemma StepLeaves(s: State, op: Op)
    ensures var t := After(s, op);
      && (!Accepts(s, op) ==> t == s)
      && (!op.EditMap? ==> t.namespaces == s.namespaces)
      && (!op.CreatePool? && !op.DeletePool? ==> t.pools == s.pools)
      && (!op.PutAllocation? && !op.DeleteAllocation? ==> t.allocs == s.allocs)
    ensures var t := After(s, op);
      Accepts(s, op) ==>
        match op
        case EditMap(m) => t.namespaces == m
        case PutAllocation(pool, project, ns, _) =>
          (pool, project) in t.allocs && t.allocs[(pool, project)] == ns
          && t.allocs - {(pool, project)} == s.allocs - {(pool, project)}
        case DeleteAllocation(pool, project) =>
          (pool, project) !in t.allocs && t.allocs == s.allocs - {(pool, project)}
        case CreatePool(pool) => forall x :: x in t.pools <==> x == pool || x in s.pools
        case DeletePool(pool) => forall x :: x in t.pools <==> x != pool && x in s.pools
  {
  }

  // ------------------------------------------------------------ the handlers

  class Server {
    var pools: set<string>
    var allocs: map<(string, string), string>
    var namespaces: map<string, string>

    /** Every mapped namespace has a name. */
    ghost predicate Valid()
      reads this
    {
      MapOk(namespaces)
    }

    constructor ()
      ensures Valid() && Contents() == State({}, map[], map[])
    {
      pools, allocs, namespaces := {}, map[], map[];
    }

    function Contents(): State
      reads this
    {
      State(pools, allocs, namespaces)
    }

    method NamespacesFromWire(m: map<string, string>) returns (r: Option<map<string, string>>)
      ensures r.Some? <==> MapOk(m)
      ensures r.Some? ==> r.value == m
    {
      hide NamespaceName;
      var out: map<string, string> := map[];
      var todo := m.Keys;
      while todo != {}
        invariant todo <= m.Keys
        invariant out == map p | p in m.Keys - todo :: m[p]
        invariant forall p :: p in m && p !in todo ==> p != "" && p != "*" && NamespaceName(m[p])
        decreases todo
      {
        var p :| p in todo;
        if p == "" || p == "*" || !NamespaceName(m[p]) {
          return None;
        }
        out := out[p := m[p]];
        todo := todo - {p};
      }
      return Some(out);
    }

    /** Scans the existing pools only. */
    method AllocationsAgreeWithNamespaces(m: map<string, string>) returns (ok: bool)
      ensures ok <==> AgreeOn(pools, allocs, m)
    {
      if m == map[] {
        return true;
      }
      var todo := pools;
      while todo != {}
        invariant todo <= pools
        invariant AgreeOn(pools - todo, allocs, m)
        decreases todo
      {
        var pool :| pool in todo;
        var keys := set key | key in allocs && key.0 == pool;
        ghost var all := keys;
        while keys != {}
          invariant keys <= all
          invariant forall key :: key in all - keys ==> KeyAgrees(allocs, m, key)
          decreases keys
        {
          var key :| key in keys;
          if key.1 in m && allocs[key] != m[key.1] {
            assert !KeyAgrees(allocs, m, key);
            return false;
          }
          keys := keys - {key};
        }
        todo := todo - {pool};
      }
      assert pools - {} == pools;
      return true;
    }

    method UpdateNamespaces(m: map<string, string>) returns (ok: bool)
      requires Valid()
      modifies this
      ensures Valid()
      ensures ok <==> Accepts(old(Contents()), EditMap(m))
      ensures Contents() == After(old(Contents()), EditMap(m))
    {
      var incoming := NamespacesFromWire(m);
      if incoming.None? {
        return false;
      }
      var agree := AllocationsAgreeWithNamespaces(incoming.value);
      if !agree {
        return false;
      }
      namespaces := incoming.value;
      return true;
    }

    function ResolveNamespace(project: string): string
      reads this
    {
      if project in namespaces then namespaces[project] else ""
    }

    method PutAllocation(pool: string, project: string, ns: string, isolated: bool) returns (ok: bool)
      requires Valid()
      modifies this
      ensures Valid()
      ensures ok <==> Accepts(old(Contents()), Op.PutAllocation(pool, project, ns, isolated))
      ensures Contents() == After(old(Contents()), Op.PutAllocation(pool, project, ns, isolated))
    {
      if pool !in pools {
        return false;
      }
      var mapped := ResolveNamespace(project);
      if mapped != "" && ns != mapped {
        return false;
      }
      if !isolated {
        return false;
      }
      allocs := allocs[(pool, project) := ns];
      return true;
    }
  }

  // -------------------------------------------------------------------- runs

  /** Bringing the pool back would expose an allocation the map contradicts. */
  predicate RevivesConflict(s: State, op: Op) {
    op.CreatePool? && !AgreeOn({op.pool}, s.allocs, s.namespaces)
  }

  /**
    A step from an agreeing state keeps the agreement exactly when it is not a pool creation that
    revives a conflict.
  */
  lemma StepAgreesIff(s: State, op: Op)
    requires Agree(s)
    ensures Agree(After(s, op)) <==> !RevivesConflict(s, op)
  {
    var t := After(s, op);
    if RevivesConflict(s, op) {
      var key :| key in s.allocs && key.0 == op.pool && !KeyAgrees(s.allocs, s.namespaces, key);
      assert key in t.allocs && key.0 in t.pools && !KeyAgrees(t.allocs, t.namespaces, key);
    } else {
      forall key | key in t.allocs && key.0 in t.pools
        ensures KeyAgrees(t.allocs, t.namespaces, key)
      {
        assert key in s.allocs && key.0 in s.pools ==> KeyAgrees(s.allocs, s.namespaces, key);
      }
    }
  }

  function Run(s: State, ops: seq<Op>): State
    decreases |ops|
  {
    if ops == [] then s else Run(After(s, ops[0]), ops[1..])
  }

  predicate NoConflictRevived(s: State, ops: seq<Op>)
    decreases |ops|
  {
    ops == [] || (!RevivesConflict(s, ops[0]) && NoConflictRevived(After(s, ops[0]), ops[1..]))
  }

  /** Agreement survives every run that revives no conflict. */
  lemma {:induction false} RunsAgree(s: State, ops: seq<Op>)
    requires Agree(s) && NoConflictRevived(s, ops)
    ensures Agree(Run(s, ops))
    decreases |ops|
  {
    if ops != [] {
      StepAgreesIff(s, ops[0]);
      RunsAgree(After(s, ops[0]), ops[1..]);
    }
  }

  predicate NoOrphans(s: State) {
    forall key :: key in s.allocs ==> key.0 in s.pools
  }

  /** Pools are deleted only when they hold no allocation. */
  predicate EmptiedFirst(s: State, ops: seq<Op>)
    decreases |ops|
  {
    ops != [] ==>
    && (ops[0].DeletePool? ==> forall key :: key in s.allocs ==> key.0 != ops[0].pool)
    && EmptiedFirst(After(s, ops[0]), ops[1..])
  }

  /** Where pools are emptied before they are deleted, every run agrees, whatever pools it creates. */
  lemma {:induction false} EmptiedRunsAgree(s: State, ops: seq<Op>)
    requires Agree(s) && NoOrphans(s) && EmptiedFirst(s, ops)
    ensures Agree(Run(s, ops)) && NoOrphans(Run(s, ops))
    decreases |ops|
  {
    if ops != [] {
      var t := After(s, ops[0]);
      assert !RevivesConflict(s, ops[0]);
      StepAgreesIff(s, ops[0]);
      forall key | key in t.allocs
        ensures key.0 in t.pools
      {
        assert key in s.allocs || ops[0].PutAllocation?;
      }
      EmptiedRunsAgree(t, ops[1..]);
    }
  }

  /** Delete a pool, map its tenant elsewhere, create the pool again: the old allocation contradicts the map. */
  lemma RevivedPoolDisagrees()
    ensures exists ops :: !Agree(Run(State({}, map[], map[]), ops))
  {
    var a := CreatePool("a");
    var put := PutAllocation("a", "p", "one", true);
    var gone := DeletePool("a");
    var edit := EditMap(map["p" := "two"]);
    var s0 := State({}, map[], map[]);
    var s1 := After(s0, a);
    var s2 := After(s1, put);
    var s3 := After(s2, gone);
    assert NamespaceName("two");
    assert MapOk(edit.m);
    assert s3.pools == {} && AgreeOn(s3.pools, s3.allocs, edit.m);
    var s4 := After(s3, edit);
    var s5 := After(s4, a);
    assert s5.allocs[("a", "p")] == "one" && s5.namespaces["p"] == "two" && "a" in s5.pools;
    assert !KeyAgrees(s5.allocs, s5.namespaces, ("a", "p"));
    var r5: seq<Op> := [];
    var r4, r3 := [a], [edit, a];
    assert Run(s4, r4) == s5 by {
      assert r4[1..] == r5;
    }
    assert Run(s3, r3) == s5 by {
      assert r3[1..] == r4;
    }
    var r2, r1, r0 := [gone] + r3, [put, gone] + r3, [a, put, gone] + r3;
    assert r2[1..] == r3 && r1[1..] == r2 && r0[1..] == r1;
    assert Run(s0, r0) == Run(s1, r1) == Run(s2, r2) == Run(s3, r3);
  }
}
