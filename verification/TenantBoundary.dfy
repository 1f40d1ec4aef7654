/**
  The tenant boundary (internal/api/authz.go, internal/api/middleware.go): the control
  plane's clusterTenantAccess and the gateway's own decision, two procedures over the same
  grants that must mean the same thing by membership.
*/
module TenantBoundary {
  import opened Prelude
  import opened Rbac

  datatype Identity = Identity(subject: string, username: Option<string>, roles: seq<Role>, projectRoles: seq<Grant>) {
    function Owner(): string {
      if username.Some? then username.value else subject
    }

    predicate Permits(verb: Verb, target: Target) {
      exists i :: 0 <= i < |roles| && roles[i].Grants(verb, target)
    }

    predicate Has(role: Role) {
      role in roles
    }
  }

  /** A stored role assignment; its role is free text. */
  datatype Row = Row(role: string, scope: string)

  datatype Cluster = Cluster(project: string, owner: Option<string>)

  /** The store: its rows, and which lookups fail. */
  datatype Store = Store(
    rows: map<string, seq<Row>>,
    failing: set<string>,
    clusters: map<string, Cluster>,
    getFails: bool)

  datatype Endpoint = Endpoint(id: string, project: string, serve: bool)

  function ParseRole(s: string): Option<Role> {
    match s
    case "viewer" => Some(Viewer)
    case "developer" => Some(Developer)
    case "operator" => Some(Operator)
    case "admin" => Some(Admin)
    case "auditor" => Some(Auditor)
    case _ => None
  }

  // ---------------------------------------------------- effective assignments

  function Parsed(rows: seq<Row>): seq<Grant> {
    if rows == [] then []
    else
      var row := rows[|rows| - 1];
      var init := Parsed(rows[..|rows| - 1]);
      if ParseRole(row.role).Some? then init + [Grant(ParseRole(row.role).value, row.scope)] else init
  }

  /** A failed lookup withholds the stored grants. */
  function RowsOf(store: Store, subject: string): seq<Row> {
    if subject in store.failing || subject !in store.rows then [] else store.rows[subject]
  }

  /** Each element of `extra` not yet there, appended in order. */
  function Union(have: seq<Grant>, extra: seq<Grant>): seq<Grant> {
    if extra == [] then have
    else
      var init := Union(have, extra[..|extra| - 1]);
      if extra[|extra| - 1] in init then init else init + [extra[|extra| - 1]]
  }

  function Stored(store: Store, id: Identity): seq<Grant> {
    var bySubject := Parsed(RowsOf(store, id.subject));
    if id.username.Some? && id.username.value != id.subject
    then Union(bySubject, Parsed(RowsOf(store, id.username.value)))
    else bySubject
  }

  function Effective(store: Option<Store>, id: Identity): seq<Grant> {
    if store.None? then id.projectRoles else Union(id.projectRoles, Stored(store.value, id))
  }

  method AssignmentsFor(store: Store, subject: string) returns (out: seq<Grant>)
    ensures out == Parsed(RowsOf(store, subject))
  {
    hide ParseRole;
    var rows := RowsOf(store, subject);
    out := [];
    for i := 0 to |rows|
      invariant out == Parsed(rows[..i])
    {
      assert rows[..i + 1][..i] == rows[..i];
      var role := ParseRole(rows[i].role);
      if role.None? {
        continue;
      }
      out := out + [Grant(role.value, rows[i].scope)];
    }
    assert rows[..|rows|] == rows;
  }

  method Append(have: seq<Grant>, extra: seq<Grant>) returns (out: seq<Grant>)
    ensures out == Union(have, extra)
  {
    out := have;
    for i := 0 to |extra|
      invariant out == Union(have, extra[..i])
    {
      assert extra[..i + 1][..i] == extra[..i];
      if extra[i] !in out {
        out := out + [extra[i]];
      }
    }
    assert extra[..|extra|] == extra;
  }

  method EffectiveAssignments(store: Option<Store>, id: Identity) returns (out: seq<Grant>)
    ensures out == Effective(store, id)
  {
    hide Parsed, Union;
    if store.None? {
      return id.projectRoles;
    }
    var stored := AssignmentsFor(store.value, id.subject);
    if id.username.Some? && id.username.value != id.subject {
      var byName := AssignmentsFor(store.value, id.username.value);
      stored := Append(stored, byName);
    }
    out := Append(id.projectRoles, stored);
  }

  function RoleName(r: Role): string {
    match r
    case Viewer => "viewer"
    case Developer => "developer"
    case Operator => "operator"
    case Admin => "admin"
    case Auditor => "auditor"
  }

  /** The five names and no other text are roles. */
  lemma RoleNames(s: string, r: Role)
    ensures ParseRole(s) == Some(r) <==> s == RoleName(r)
  {
  }

  /** A stored row grants it, and the lookup that would find the row does not fail. */
  predicate HoldsRow(store: Store, subject: string, g: Grant) {
    && subject in store.rows && subject !in store.failing
    && Row(RoleName(g.role), g.scope) in store.rows[subject]
  }

  /** The grants an identity holds, straight from its group-derived roles and the stored rows. */
  predicate Holds(store: Option<Store>, id: Identity, g: Grant) {
    || g in id.projectRoles
    || (store.Some? && HoldsRow(store.value, id.subject, g))
    || (store.Some? && id.username.Some? && HoldsRow(store.value, id.username.value, g))
  }

  lemma {:induction false} ParsedIs(rows: seq<Row>, g: Grant)
    ensures g in Parsed(rows) <==> Row(RoleName(g.role), g.scope) in rows
  {
    hide ParseRole, RoleName;
    if rows != [] {
      var init, last := rows[..|rows| - 1], rows[|rows| - 1];
      ParsedIs(init, g);
      RoleNames(last.role, g.role);
      assert rows == init + [last];
      if ParseRole(last.role).Some? {
        RoleNames(last.role, ParseRole(last.role).value);
      }
    }
  }

  lemma StoredGrantIs(store: Store, subject: string, g: Grant)
    ensures g in Parsed(RowsOf(store, subject)) <==> HoldsRow(store, subject, g)
  {
    hide Parsed, RoleName;
    ParsedIs(RowsOf(store, subject), g);
  }

  lemma {:induction false} UnionIs(have: seq<Grant>, extra: seq<Grant>)
    ensures forall g :: g in Union(have, extra) <==> g in have || g in extra
    ensures Distinct(have) ==> Distinct(Union(have, extra))
  {
    if extra != [] {
      var init := extra[..|extra| - 1];
      assert extra == init + [extra[|extra| - 1]];
      UnionIs(have, init);
    }
  }

  /** The effective assignments are exactly the grants held; nothing is listed twice once the groups' are not. */
  lemma EffectiveIs(store: Option<Store>, id: Identity, g: Grant)
    ensures g in Effective(store, id) <==> Holds(store, id, g)
    ensures Distinct(id.projectRoles) ==> Distinct(Effective(store, id))
  {
    hide Parsed, Union, HoldsRow, RowsOf;
    if store.Some? {
      var bySubject := Parsed(RowsOf(store.value, id.subject));
      StoredGrantIs(store.value, id.subject, g);
      if id.username.Some? {
        StoredGrantIs(store.value, id.username.value, g);
        UnionIs(bySubject, Parsed(RowsOf(store.value, id.username.value)));
      }
      UnionIs(id.projectRoles, Stored(store.value, id));
    }
  }

  // ------------------------------------------------------------ the decisions

  predicate Licenses(g: Grant, project: string, verb: Verb, target: Target) {
    g.scope != GLOBAL && ScopeCovers(g.scope, project) && g.role.Grants(verb, target)
  }

  predicate ProjectAssignmentGrants(store: Option<Store>, id: Identity, project: string, verb: Verb, target: Target) {
    var grants := Effective(store, id);
    exists i :: 0 <= i < |grants| && Licenses(grants[i], project, verb, target)
  }

  method CheckProjectAssignments(store: Option<Store>, id: Identity, project: string, verb: Verb, target: Target)
    returns (ok: bool)
    ensures ok == ProjectAssignmentGrants(store, id, project, verb, target)
  {
    hide Licenses, Effective;
    var grants := EffectiveAssignments(store, id);
    for i := 0 to |grants|
      invariant forall j :: 0 <= j < i ==> !Licenses(grants[j], project, verb, target)
    {
      if Licenses(grants[i], project, verb, target) {
        return true;
      }
    }
    return false;
  }

  predicate ClusterTenantAccess(store: Option<Store>, identity: Option<Identity>, c: Cluster, verb: Verb,
                                target: Target, auditorAll: bool) {
    identity.None? ||
    (var id := identity.value;
     || id.Has(Admin)
     || (auditorAll && verb.Read? && id.Has(Auditor))
     || (c.owner.Some? && c.owner.value == id.Owner())
     || ProjectAssignmentGrants(store, id, c.project, verb, target))
  }

  function GatewayTarget(e: Endpoint): Target {
    if e.serve then ServiceTarget else JobTarget
  }

  /** The permission half and the boundary half. */
  datatype Decision = Decision(permitted: bool, within: bool) {
    predicate Allows() {
      permitted && within
    }
  }

  method DecideGateway(store: Option<Store>, identity: Option<Identity>, verb: Verb, target: Target, e: Endpoint)
    returns (d: Decision)
    ensures d == GatewayDecision(store, identity, verb, target, e)
  {
    hide ProjectAssignmentGrants;
    if identity.None? {
      return Decision(true, true);
    }
    var id := identity.value;
    var project, owner := e.project, None;
    if !e.serve && store.Some? {
      if store.value.getFails {
        return Decision(false, false);
      }
      if e.id in store.value.clusters {
        var c := store.value.clusters[e.id];
        project, owner := c.project, c.owner;
      }
    }
    if project == "" && owner.None? {
      return Decision(id.Permits(verb, target), true);
    }
    var grant := false;
    if project != "" {
      grant := CheckProjectAssignments(store, id, project, verb, target);
    }
    return Decision(id.Permits(verb, target) || grant,
                    id.Has(Admin) || grant || (owner.Some? && owner.value == id.Owner()));
  }

  /** Whose cluster an entry fronts: the stored row when there is one, else what the entry says. */
  function Tenant(store: Option<Store>, e: Endpoint): Cluster {
    if !e.serve && store.Some? && e.id in store.value.clusters then store.value.clusters[e.id]
    else Cluster(e.project, None)
  }

  predicate LookupFails(store: Option<Store>, e: Endpoint) {
    !e.serve && store.Some? && store.value.getFails
  }

  function GatewayDecision(store: Option<Store>, identity: Option<Identity>, verb: Verb, target: Target,
                           e: Endpoint): Decision {
    if identity.None? then Decision(true, true)
    else if LookupFails(store, e) then Decision(false, false)
    else
      var id, t := identity.value, Tenant(store, e);
      if t.project == "" && t.owner.None? then Decision(id.Permits(verb, target), true)
      else
        var grant := t.project != "" && ProjectAssignmentGrants(store, id, t.project, verb, target);
        Decision(id.Permits(verb, target) || grant,
                 id.Has(Admin) || grant || (t.owner.Some? && t.owner.value == id.Owner()))
  }

  // ------------------------------------------------------------------ meaning

  /** Some held grant scoped to the project licenses the request. */
  ghost predicate Member(store: Option<Store>, id: Identity, project: string, verb: Verb, target: Target) {
    exists g :: Holds(store, id, g) && g.scope == PROJECT + project && g.role.Grants(verb, target)
  }

  lemma MemberIs(store: Option<Store>, id: Identity, project: string, verb: Verb, target: Target)
    ensures ProjectAssignmentGrants(store, id, project, verb, target) <==> Member(store, id, project, verb, target)
  {
    hide Holds, Effective;
    assert (PROJECT + project)[0] == 'p';
    var grants := Effective(store, id);
    if ProjectAssignmentGrants(store, id, project, verb, target) {
      var i :| 0 <= i < |grants| && Licenses(grants[i], project, verb, target);
      EffectiveIs(store, id, grants[i]);
    }
    if Member(store, id, project, verb, target) {
      var g :| Holds(store, id, g) && g.scope == PROJECT + project && g.role.Grants(verb, target);
      EffectiveIs(store, id, g);
      var i :| 0 <= i < |grants| && grants[i] == g;
      assert Licenses(grants[i], project, verb, target);
    }
  }

  /** Some global role of the caller permits the request. */
  predicate RolePermits(id: Identity, verb: Verb, target: Target) {
    exists r :: r in id.roles && r.Grants(verb, target)
  }

  /**
    What a tenant of that project and owner opens itself to, over the raw grants: a project-scoped grant that
    licenses the request itself, or a global role that permits it held by an admin or by the recorded
    owner; with no project and no owner, the global role alone.
  */
  ghost predicate OpenTo(store: Option<Store>, id: Identity, verb: Verb, target: Target, project: string,
                         owner: Option<string>) {
    || (project != "" && Member(store, id, project, verb, target))
    || (RolePermits(id, verb, target) &&
        (|| Admin in id.roles
         || owner == Some(if id.username.Some? then id.username.value else id.subject)
         || (project == "" && owner.None?)))
  }

  lemma RolePermitsIs(id: Identity, verb: Verb, target: Target)
    ensures id.Permits(verb, target) <==> RolePermits(id, verb, target)
    ensures Admin in id.roles ==> RolePermits(id, verb, target)
  {
    assert forall r :: r in id.roles ==> exists i :: 0 <= i < |id.roles| && id.roles[i] == r;
  }

  /** The decision by the tenant it finds. */
  lemma TenantDecides(store: Option<Store>, id: Identity, verb: Verb, target: Target, e: Endpoint)
    ensures GatewayDecision(store, Some(id), verb, target, e).Allows() <==>
      && !LookupFails(store, e)
      && OpenTo(store, id, verb, target, Tenant(store, e).project, Tenant(store, e).owner)
  {
    MemberIs(store, id, Tenant(store, e).project, verb, target);
    RolePermitsIs(id, verb, target);
    hide Member, ProjectAssignmentGrants, RolePermits;
  }

  /**
    What the gateway allows. A cluster entry whose lookup fails: nothing. One with a stored row: what that
    row's project and owner are open to. A serve entry, or one with no row: what its own project is open to.
  */
  lemma GatewayMeans(store: Option<Store>, id: Identity, verb: Verb, target: Target, e: Endpoint)
    ensures var allows := GatewayDecision(store, Some(id), verb, target, e).Allows();
      if e.serve || store.None? then allows <==> OpenTo(store, id, verb, target, e.project, None)
      else if store.value.getFails then !allows
      else if e.id in store.value.clusters
      then allows <==>
        OpenTo(store, id, verb, target, store.value.clusters[e.id].project, store.value.clusters[e.id].owner)
      else allows <==> OpenTo(store, id, verb, target, e.project, None)
  {
    TenantDecides(store, id, verb, target, e);
    hide OpenTo, GatewayDecision;
  }

  /**
    So an entry with no row of its own is its project's: a grant scoped to that project that licenses the
    request, or an admin; and where it names no project, any global role that permits the request.
  */
  lemma RowlessEntryMeans(store: Option<Store>, id: Identity, verb: Verb, target: Target, e: Endpoint)
    requires e.serve || store.None? || (!store.value.getFails && e.id !in store.value.clusters)
    ensures e.project != "" ==>
      (GatewayDecision(store, Some(id), verb, target, e).Allows() <==>
        || Admin in id.roles
        || exists g :: Holds(store, id, g) && g.scope == PROJECT + e.project && g.role.Grants(verb, target))
    ensures e.project == "" ==>
      (GatewayDecision(store, Some(id), verb, target, e).Allows() <==>
        exists r :: r in id.roles && r.Grants(verb, target))
  {
    GatewayMeans(store, id, verb, target, e);
    RolePermitsIs(id, verb, target);
    hide GatewayDecision, Holds;
  }

  /** Whose clusters a caller may see or touch: an auditor's override opens reads alone. */
  lemma TenantAccessMeans(store: Option<Store>, id: Identity, c: Cluster, verb: Verb, target: Target, auditorAll: bool)
    ensures ClusterTenantAccess(store, Some(id), c, verb, target, auditorAll) <==>
      || Admin in id.roles
      || (auditorAll && verb == Read && Auditor in id.roles)
      || c.owner == Some(if id.username.Some? then id.username.value else id.subject)
      || Member(store, id, c.project, verb, target)
  {
    MemberIs(store, id, c.project, verb, target);
    hide Member, ProjectAssignmentGrants;
  }

  /** The scopes in play are grammar-valid, as every writer of grants ensures. */
  ghost predicate ScopesValid(store: Option<Store>, id: Identity) {
    forall g :: Holds(store, id, g) ==> ValidScope(g.scope)
  }

  lemma NoNamelessMember(store: Option<Store>, id: Identity, verb: Verb, target: Target)
    requires ScopesValid(store, id)
    ensures !Member(store, id, "", verb, target)
  {
    assert !ValidScope(PROJECT + "");
  }

  /** The control plane's rule for the same request: inside the boundary, and the verb licensed. */
  predicate ControlPlaneAllows(store: Option<Store>, id: Identity, c: Cluster, verb: Verb, target: Target) {
    && ClusterTenantAccess(store, Some(id), c, verb, target, false)
    && (id.Permits(verb, target) || ProjectAssignmentGrants(store, id, c.project, verb, target))
  }

  /**
    Gateway and control plane agree on every stored cluster behind a jobs entry, with one exception: a
    row with neither project nor owner, which the gateway opens to any permitting role and the control
    plane to admins only.
  */
  lemma GatewayAgreesIff(store: Option<Store>, id: Identity, verb: Verb, e: Endpoint)
    requires store.Some? && !store.value.getFails && !e.serve && e.id in store.value.clusters
    requires ScopesValid(store, id)
    ensures var c := store.value.clusters[e.id];
      (GatewayDecision(store, Some(id), verb, JobTarget, e).Allows() <==>
         ControlPlaneAllows(store, id, c, verb, JobTarget)) <==>
      !(c.project == "" && c.owner.None? && id.Permits(verb, JobTarget) && !id.Has(Admin))
  {
    var c := store.value.clusters[e.id];
    MemberIs(store, id, c.project, verb, JobTarget);
    NoNamelessMember(store, id, verb, JobTarget);
    assert id.Has(Admin) ==> id.Permits(verb, JobTarget) by {
      if id.Has(Admin) {
        var i :| 0 <= i < |id.roles| && id.roles[i] == Admin;
      }
    }
    hide Member, ProjectAssignmentGrants;
  }

  /** A developer and a stored cluster with neither project nor owner. */
  lemma GatewayDisagrees()
    ensures exists store: Option<Store>, id: Identity, e: Endpoint ::
      && store.Some? && !store.value.getFails && !e.serve && e.id in store.value.clusters && ScopesValid(store, id)
      && GatewayDecision(store, Some(id), Write, JobTarget, e).Allows()
      && !ControlPlaneAllows(store, id, store.value.clusters[e.id], Write, JobTarget)
  {
    var store := Some(Store(map[], {}, map["c" := Cluster("", None)], false));
    var id := Identity("dev", None, [Developer], []);
    var e := Endpoint("c", "", false);
    assert id.roles[0].Grants(Write, JobTarget);
    assert ScopesValid(store, id);
    assert GatewayDecision(store, Some(id), Write, JobTarget, e).Allows();
    GatewayAgreesIff(store, id, Write, e);
  }

  /** With a project on the row they agree outright, whatever the scopes. */
  lemma GatewayAgrees(store: Option<Store>, id: Identity, verb: Verb, e: Endpoint)
    requires store.Some? && !store.value.getFails && !e.serve && e.id in store.value.clusters
    requires store.value.clusters[e.id].project != ""
    ensures GatewayDecision(store, Some(id), verb, JobTarget, e).Allows() <==>
      ControlPlaneAllows(store, id, store.value.clusters[e.id], verb, JobTarget)
  {
    hide ProjectAssignmentGrants;
    assert id.Has(Admin) ==> id.Permits(verb, JobTarget) by {
      if id.Has(Admin) {
        var i :| 0 <= i < |id.roles| && id.roles[i] == Admin;
      }
    }
  }

  predicate PermitsScoped(id: Identity, verb: Verb, target: Target, grants: seq<Grant>, project: string) {
    id.Permits(verb, target) ||
    exists i :: 0 <= i < |grants| && ScopeCovers(grants[i].scope, project) && grants[i].role.Grants(verb, target)
  }

  predicate AuthorizeScoped(store: Option<Store>, identity: Option<Identity>, verb: Verb, target: Target,
                            project: string) {
    || identity.None?
    || identity.value.Permits(verb, target)
    || PermitsScoped(identity.value, verb, target, Effective(store, identity.value), project)
  }

  /** The scoped check over the raw grants: a global role, or a held grant that is global or names the project. */
  lemma AuthorizeScopedMeans(store: Option<Store>, id: Identity, verb: Verb, target: Target, project: string)
    ensures AuthorizeScoped(store, Some(id), verb, target, project) <==>
      || id.Permits(verb, target)
      || exists g :: Holds(store, id, g) && ScopeCovers(g.scope, project) && g.role.Grants(verb, target)
  {
    hide Holds, Effective;
    var grants := Effective(store, id);
    forall g
      ensures g in grants <==> Holds(store, id, g)
    {
      EffectiveIs(store, id, g);
    }
    assert forall g :: g in grants ==> exists i :: 0 <= i < |grants| && grants[i] == g;
  }

  /** Whatever the gateway allows, the scoped check of the tenant's project allows; the gateway only narrows it. */
  lemma GatewayNarrowsScoped(store: Option<Store>, id: Identity, verb: Verb, target: Target, e: Endpoint)
    requires GatewayDecision(store, Some(id), verb, target, e).Allows()
    ensures AuthorizeScoped(store, Some(id), verb, target, Tenant(store, e).project)
  {
    var t := Tenant(store, e);
    TenantDecides(store, id, verb, target, e);
    RolePermitsIs(id, verb, target);
    AuthorizeScopedMeans(store, id, verb, target, t.project);
    hide GatewayDecision, AuthorizeScoped, Holds, RolePermits;
    if Member(store, id, t.project, verb, target) {
      var g :| Holds(store, id, g) && g.scope == PROJECT + t.project && g.role.Grants(verb, target);
      assert ScopeCovers(g.scope, t.project);
    }
  }

  /** `b` is the same caller holding at least what `a` holds. */
  ghost predicate HoldsMore(sa: Option<Store>, a: Identity, sb: Option<Store>, b: Identity) {
    && a.Owner() == b.Owner()
    && (forall r :: a.Has(r) ==> b.Has(r))
    && (forall g :: Holds(sa, a, g) ==> Holds(sb, b, g))
  }

  lemma PermitsMore(a: Identity, b: Identity, verb: Verb, target: Target)
    requires (forall r :: a.Has(r) ==> b.Has(r)) && a.Permits(verb, target)
    ensures b.Permits(verb, target)
  {
    var i :| 0 <= i < |a.roles| && a.roles[i].Grants(verb, target);
    assert a.Has(a.roles[i]);
    var j :| 0 <= j < |b.roles| && b.roles[j] == a.roles[i];
    assert b.roles[j].Grants(verb, target);
  }

  /** Grants only add: whoever holds more is never refused where the other was allowed. */
  lemma GrantsOnlyAdd(sa: Option<Store>, a: Identity, sb: Option<Store>, b: Identity, verb: Verb, target: Target,
                      e: Endpoint)
    requires HoldsMore(sa, a, sb, b)
    requires Tenant(sa, e) == Tenant(sb, e) && (LookupFails(sb, e) ==> LookupFails(sa, e))
    requires GatewayDecision(sa, Some(a), verb, target, e).Allows()
    ensures GatewayDecision(sb, Some(b), verb, target, e).Allows()
  {
    TenantDecides(sa, a, verb, target, e);
    TenantDecides(sb, b, verb, target, e);
    RolePermitsIs(a, verb, target);
    RolePermitsIs(b, verb, target);
    var t := Tenant(sa, e);
    if Member(sa, a, t.project, verb, target) {
      var g :| Holds(sa, a, g) && g.scope == PROJECT + t.project && g.role.Grants(verb, target);
      assert Holds(sb, b, g);
    }
    if a.Permits(verb, target) {
      PermitsMore(a, b, verb, target);
    }
    assert forall r :: r in a.roles ==> a.Has(r) && b.Has(r);
    hide GatewayDecision, Holds, Tenant, LookupFails, RolePermits;
  }

  /** A caller holding nothing but auditor, globally and by grant, is never let through the gateway. */
  lemma AuditorGetsNothing(store: Option<Store>, id: Identity, verb: Verb, e: Endpoint)
    requires forall r :: id.Has(r) ==> r == Auditor
    requires forall g :: Holds(store, id, g) ==> g.role == Auditor
    ensures !GatewayDecision(store, Some(id), verb, GatewayTarget(e), e).Allows()
  {
    TenantDecides(store, id, verb, GatewayTarget(e), e);
    RolePermitsIs(id, verb, GatewayTarget(e));
    assert forall i :: 0 <= i < |id.roles| ==> id.Has(id.roles[i]);
    hide GatewayDecision, Holds;
  }
}
