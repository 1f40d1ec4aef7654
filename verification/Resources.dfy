/**
  Resource accounting shared by cluster quota and serving admission: resource
  maps (internal/policy/policy.go), the store rows they are summed over, and
  the listing loop that both admission paths run.

  Amounts are reals; `finiteNonNeg` (internal/policy/quantity.go) keeps every
  parsed quantity finite and non-negative. A stored spec whose quantities do not
  parse has demand None.
*/
module Resources {
  import opened Prelude

  type Amount = r: real | r >= 0.0 witness 0.0

  /** Sparse: a missing key is zero. */
  type ResourceMap = map<string, Amount>

  function At(m: ResourceMap, k: string): Amount {
    if k in m then m[k] else 0.0
  }

  function Add(a: ResourceMap, b: ResourceMap): (r: ResourceMap)
    ensures forall k :: At(r, k) == At(a, k) + At(b, k)
  {
    map k | k in a.Keys + b.Keys :: At(a, k) + At(b, k)
  }

  predicate FitsWithin(m: ResourceMap, limit: ResourceMap) {
    forall k :: k in m ==> m[k] <= At(limit, k)
  }

  predicate AdmitQuota(limit: ResourceMap, inUse: ResourceMap, requested: ResourceMap) {
    FitsWithin(Add(inUse, requested), limit)
  }

  // ------------------------------------------------------------- the store

  datatype Desired = Running | Suspended | Terminated

  datatype Row = Row(project: string, demand: Option<ResourceMap>, desired: Desired)

  type Store = map<string, Row>

  /** UpsertDesired and UpsertService: a live row keeps its desired state, a terminated one is re-created. */
  function Upsert(store: Store, id: string, project: string, demand: Option<ResourceMap>): Store {
    var desired := if id in store && store[id].desired != Terminated then store[id].desired else Running;
    store[id := Row(project, demand, desired)]
  }

  function SetDesired(store: Store, id: string, desired: Desired): Store {
    if id in store then store[id := store[id].(desired := desired)] else store
  }

  // ----------------------------------------------------------- summed usage

  predicate Counts(row: Row, project: string) {
    row.project == project && row.desired == Running
  }

  function Charge(row: Row, project: string, k: string): Amount {
    if Counts(row, project) && row.demand.Some? then At(row.demand.value, k) else 0.0
  }

  /** Demand for `k` summed over the project's running rows. */
  ghost function Usage(store: Store, project: string, k: string): Amount
    decreases |store|
  {
    if store == map[] then 0.0
    else
      var id :| id in store;
      Charge(store[id], project, k) + Usage(store - {id}, project, k)
  }

  lemma {:induction false} UsageSplit(store: Store, id: string, project: string, k: string)
    requires id in store
    ensures Usage(store, project, k) == Charge(store[id], project, k) + Usage(store - {id}, project, k)
    decreases |store|
  {
    var first :| first in store && Usage(store, project, k)
      == Charge(store[first], project, k) + Usage(store - {first}, project, k);
    if first != id {
      UsageSplit(store - {first}, id, project, k);
      UsageSplit(store - {id}, first, project, k);
      assert store - {first} - {id} == store - {id} - {first};
    }
  }

  lemma UsagePut(store: Store, id: string, row: Row, project: string, k: string)
    ensures Usage(store[id := row], project, k) == Charge(row, project, k) + Usage(store - {id}, project, k)
  {
    UsageSplit(store[id := row], id, project, k);
    assert store[id := row] - {id} == store - {id};
  }

  /** Row by row no more is charged in `a` than in `b`. */
  ghost predicate ChargedWithin(a: Store, b: Store, project: string, k: string) {
    forall id :: id in a ==>
      Charge(a[id], project, k) == 0.0 || (id in b && Charge(a[id], project, k) <= Charge(b[id], project, k))
  }

  lemma {:induction false} UsageMono(a: Store, b: Store, project: string, k: string)
    requires ChargedWithin(a, b, project, k)
    ensures Usage(a, project, k) <= Usage(b, project, k)
    decreases |a|
  {
    if a != map[] {
      var id :| id in a;
      UsageSplit(a, id, project, k);
      if id in b {
        UsageSplit(b, id, project, k);
        UsageMono(a - {id}, b - {id}, project, k);
      } else {
        UsageMono(a - {id}, b, project, k);
      }
    }
  }

  // -------------------------------------------------------------- listings

  datatype Stored = Stored(id: string, row: Row)

  /** What Store.List answers: every row once, in any order. */
  ghost predicate IsListing(rows: seq<Stored>, store: Store) {
    && (forall i, j :: 0 <= i < j < |rows| ==> rows[i].id != rows[j].id)
    && (forall i :: 0 <= i < |rows| ==> rows[i].id in store && store[rows[i].id] == rows[i].row)
    && (forall id :: id in store ==> exists i :: 0 <= i < |rows| && rows[i].id == id)
  }

  /** Every row the sum reads has a demand that parses. */
  ghost predicate Accountable(store: Store, project: string) {
    forall id :: id in store && Counts(store[id], project) ==> store[id].demand.Some?
  }

  lemma ListingSnoc(rows: seq<Stored>, store: Store, id: string, row: Row)
    requires IsListing(rows, store) && id !in store
    ensures IsListing(rows + [Stored(id, row)], store[id := row])
  {
    var out, put := rows + [Stored(id, row)], store[id := row];
    forall x | x in put
      ensures exists i :: 0 <= i < |out| && out[i].id == x
    {
      if x == id {
        assert out[|rows|].id == x;
      } else {
        var i :| 0 <= i < |rows| && rows[i].id == x;
        assert out[i].id == x;
      }
    }
  }

  lemma PutBack<K, V>(m: map<K, V>, out: set<K>, k: K)
    requires k in m && k in out
    ensures (m - out)[k := m[k]] == m - (out - {k})
  {}

  method List(store: Store) returns (rows: seq<Stored>)
    ensures IsListing(rows, store)
  {
    rows := [];
    var todo := store.Keys;
    while todo != {}
      invariant todo <= store.Keys
      invariant IsListing(rows, store - todo)
      decreases todo
    {
      hide IsListing;
      var id :| id in todo;
      ListingSnoc(rows, store - todo, id, store[id]);
      PutBack(store, todo, id);
      rows := rows + [Stored(id, store[id])];
      todo := todo - {id};
    }
    assert store - {} == store;
  }

  lemma ListingDropLast(rows: seq<Stored>, store: Store)
    requires rows != [] && IsListing(rows, store)
    ensures IsListing(rows[..|rows| - 1], store - {rows[|rows| - 1].id})
  {
    var n := |rows| - 1;
    forall id | id in store - {rows[n].id}
      ensures exists i :: 0 <= i < n && rows[..n][i].id == id
    {
      var i :| 0 <= i < |rows| && rows[i].id == id;
      assert rows[..n][i].id == id;
    }
  }

  /**
    The in-use sum both admission paths compute: the project's other running
    rows, failing closed on one whose stored demand does not parse.
  */
  function InUse(rows: seq<Stored>, project: string, id: string): Option<ResourceMap> {
    if rows == [] then Some(map[])
    else
      var last := rows[|rows| - 1];
      var before := InUse(rows[..|rows| - 1], project, id);
      if before.None? || last.id == id || !Counts(last.row, project) then before
      else if last.row.demand.None? then None
      else Some(Add(before.value, last.row.demand.value))
  }

  lemma {:induction false} InUseNone(rows: seq<Stored>, project: string, id: string, n: nat)
    requires n <= |rows| && InUse(rows[..n], project, id).None?
    ensures InUse(rows, project, id).None?
    decreases |rows| - n
  {
    if n == |rows| {
      assert rows[..n] == rows;
    } else {
      assert rows[..n + 1][..n] == rows[..n];
      InUseNone(rows, project, id, n + 1);
    }
  }

  method SumInUse(rows: seq<Stored>, project: string, id: string) returns (inUse: Option<ResourceMap>)
    ensures inUse == InUse(rows, project, id)
  {
    var sum: ResourceMap := map[];
    var i := 0;
    while i < |rows|
      invariant 0 <= i <= |rows|
      invariant InUse(rows[..i], project, id) == Some(sum)
    {
      var c := rows[i];
      assert rows[..i + 1][..i] == rows[..i];
      if c.id == id || !Counts(c.row, project) {
        i := i + 1;
        continue;
      }
      if c.row.demand.None? {
        InUseNone(rows, project, id, i + 1);
        return None;
      }
      sum := Add(sum, c.row.demand.value);
      i := i + 1;
    }
    assert rows[..i] == rows;
    return Some(sum);
  }

  lemma {:induction false} InUseFailsClosed(rows: seq<Stored>, store: Store, project: string, id: string)
    requires IsListing(rows, store)
    ensures InUse(rows, project, id).Some? <==> Accountable(store - {id}, project)
    decreases |rows|
  {
    if rows == [] {
      assert store == map[];
    } else {
      var last := rows[|rows| - 1];
      ListingDropLast(rows, store);
      var rest := store - {last.id};
      InUseFailsClosed(rows[..|rows| - 1], rest, project, id);
      assert forall x :: x in store - {id} <==> (x in rest - {id} || (x == last.id && x != id));
      assert forall x :: x in rest - {id} ==> (store - {id})[x] == (rest - {id})[x];
      if last.id != id {
        assert (store - {id})[last.id] == last.row;
      }
    }
  }

  /** The loop's result does not depend on the listing's order: it is the stored usage of the other rows. */
  lemma {:induction false} InUseIsUsage(rows: seq<Stored>, store: Store, project: string, id: string, k: string)
    requires IsListing(rows, store) && InUse(rows, project, id).Some?
    ensures At(InUse(rows, project, id).value, k) == Usage(store - {id}, project, k)
    decreases |rows|
  {
    if rows == [] {
      assert store == map[];
    } else {
      var last := rows[|rows| - 1];
      ListingDropLast(rows, store);
      InUseIsUsage(rows[..|rows| - 1], store - {last.id}, project, id, k);
      if last.id == id {
        assert store - {last.id} - {id} == store - {id};
      } else {
        assert store - {last.id} - {id} == store - {id} - {last.id};
        UsageSplit(store - {id}, last.id, project, k);
      }
    }
  }

  ghost predicate WithinLimit(store: Store, project: string, limit: ResourceMap) {
    forall k :: Usage(store, project, k) <= At(limit, k)
  }

  /** Admission decides exactly whether the stored usage with this request in place fits the limit. */
  lemma AdmissionDecides(rows: seq<Stored>, store: Store, project: string, id: string, requested: ResourceMap,
                         limit: ResourceMap)
    requires IsListing(rows, store) && InUse(rows, project, id).Some?
    ensures AdmitQuota(limit, InUse(rows, project, id).value, requested)
      <==> forall k :: Usage(store - {id}, project, k) + At(requested, k) <= At(limit, k)
  {
    forall k
      ensures At(InUse(rows, project, id).value, k) == Usage(store - {id}, project, k)
    {
      InUseIsUsage(rows, store, project, id, k);
    }
    var total := Add(InUse(rows, project, id).value, requested);
    if FitsWithin(total, limit) {
      forall k
        ensures Usage(store - {id}, project, k) + At(requested, k) <= At(limit, k)
      {
        assert At(total, k) <= At(limit, k);
      }
    } else {
      var k :| k in total && total[k] > At(limit, k);
      assert At(total, k) == Usage(store - {id}, project, k) + At(requested, k);
    }
  }
}
