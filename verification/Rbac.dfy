/** Roles, scopes and group-derived grants (internal/auth/rbac.go). */
module Rbac {
  import opened Prelude

  datatype Verb = Read | Write | Delete | AdminVerb

  datatype Target = JobTarget | ClusterTarget | ServiceTarget | PoolTarget | AuditTarget

  datatype Role = Viewer | Developer | Operator | Admin | Auditor {
    predicate Grants(verb: Verb, target: Target) {
      match this
      case Admin => true
      case Viewer => !target.AuditTarget? && verb.Read?
      case Auditor => target.AuditTarget? && verb.Read?
      case Developer =>
        (match target
         case JobTarget | ServiceTarget => !verb.AdminVerb?
         case ClusterTarget | PoolTarget => verb.Read?
         case AuditTarget => false)
      case Operator =>
        (match target
         case ClusterTarget => !verb.AdminVerb?
         case JobTarget | ServiceTarget | PoolTarget => verb.Read?
         case AuditTarget => false)
    }
  }

  /**
    Roles are permission sets, not ranks: only admins administer or change pools, only admins and
    auditors read the audit trail, auditors read nothing else, operators change clusters and no code,
    developers change code and no cluster, everyone else reads.
  */
  lemma RolesAreSets(r: Role, verb: Verb, target: Target)
    ensures r.Grants(verb, target) <==>
      || r.Admin?
      || (target.AuditTarget? && r.Auditor? && verb.Read?)
      || (!target.AuditTarget? && !r.Auditor? && verb.Read?)
      || (verb in {Write, Delete} && target == ClusterTarget && r.Operator?)
      || (verb in {Write, Delete} && target in {JobTarget, ServiceTarget} && r.Developer?)
  {
  }

  const GLOBAL := "*"
  const PROJECT := "project:"

  predicate NameChar(c: char) {
    || 'a' <= c <= 'z' || 'A' <= c <= 'Z' || '0' <= c <= '9'
    || c == '-' || c == '_' || c == '.' || c == '/'
  }

  predicate ProjectName(s: string) {
    s != "" && forall i :: 0 <= i < |s| ==> NameChar(s[i])
  }

  predicate ValidScope(scope: string) {
    scope == GLOBAL || (PROJECT <= scope && ProjectName(scope[|PROJECT|..]))
  }

  predicate ScopeCovers(scope: string, project: string) {
    scope == GLOBAL || scope == PROJECT + project
  }

  /** A grammar-valid scope covers every project, or exactly the one it names. */
  lemma ScopeCoversOne(scope: string, project: string)
    requires ValidScope(scope)
    ensures ScopeCovers(scope, project) <==> scope == GLOBAL || (scope != GLOBAL && project == scope[|PROJECT|..])
    ensures scope != GLOBAL && ScopeCovers(scope, project) ==> ProjectName(project)
  {
    if scope != GLOBAL {
      assert scope == PROJECT + scope[|PROJECT|..];
    }
    assert (PROJECT + project)[|PROJECT|..] == project;
  }

  datatype Grant = Grant(role: Role, scope: string)

  // -------------------------------------------------------- group-derived grants

  datatype Mappings = Mappings(patterns: map<Role, seq<string>>, stripPrefix: string) {
    function Of(role: Role): seq<string> {
      if role in patterns then patterns[role] else []
    }
  }

  const ROLES := [Admin, Operator, Developer, Viewer, Auditor]

  predicate Matches(patterns: seq<string>, group: string) {
    exists i :: 0 <= i < |patterns| && (patterns[i] == "*" || patterns[i] == group)
  }

  function TrimPrefix(s: string, prefix: string): string {
    if prefix <= s then s[|prefix|..] else s
  }

  function ScopeOf(m: Mappings, group: string): string {
    PROJECT + TrimPrefix(group, m.stripPrefix)
  }

  /** The group names a project and holds the role there. */
  predicate Derives(m: Mappings, role: Role, group: string) {
    Matches(m.Of(role), group) && ValidScope(ScopeOf(m, group))
  }

  function DerivedFor(m: Mappings, role: Role, groups: seq<string>): seq<Grant> {
    if groups == [] then []
    else
      var g := groups[|groups| - 1];
      DerivedFor(m, role, groups[..|groups| - 1]) + (if Derives(m, role, g) then [Grant(role, ScopeOf(m, g))] else [])
  }

  /** Every derivation, role by role and group by group, repeats included. */
  function Derivations(m: Mappings, roles: seq<Role>, groups: seq<string>): seq<Grant> {
    if roles == [] then []
    else Derivations(m, roles[..|roles| - 1], groups) + DerivedFor(m, roles[|roles| - 1], groups)
  }

  /** First occurrences, in order. */
  function Dedup(s: seq<Grant>): seq<Grant> {
    if s == [] then []
    else
      var init := Dedup(s[..|s| - 1]);
      if s[|s| - 1] in init then init else init + [s[|s| - 1]]
  }

  lemma DedupSnoc(s: seq<Grant>, x: Grant)
    ensures Dedup(s + [x]) == if x in Dedup(s) then Dedup(s) else Dedup(s) + [x]
  {
    assert (s + [x])[..|s|] == s;
  }

  lemma {:induction false} DedupIs(s: seq<Grant>)
    ensures Distinct(Dedup(s))
    ensures forall x :: x in Dedup(s) <==> x in s
  {
    if s != [] {
      var init := s[..|s| - 1];
      assert s == init + [s[|s| - 1]];
      DedupIs(init);
    }
  }

  method IsMatch(patterns: seq<string>, group: string) returns (matched: bool)
    ensures matched == Matches(patterns, group)
  {
    for i := 0 to |patterns|
      invariant !Matches(patterns[..i], group)
    {
      if patterns[i] == "*" || patterns[i] == group {
        return true;
      }
      assert forall j :: 0 <= j < i ==> patterns[..i][j] == patterns[j];
    }
    assert patterns[..|patterns|] == patterns;
    return false;
  }

  /** One role's pass over the groups, appending what it derives to `out`. */
  method ResolveRole(m: Mappings, role: Role, groups: seq<string>, start: seq<Grant>, ghost earlier: seq<Grant>)
    returns (out: seq<Grant>)
    requires start == Dedup(earlier)
    ensures out == Dedup(earlier + DerivedFor(m, role, groups))
  {
    hide Dedup, Matches, ValidScope, ScopeOf;
    out := start;
    assert earlier + [] == earlier;
    for i := 0 to |groups|
      invariant out == Dedup(earlier + DerivedFor(m, role, groups[..i]))
    {
      var g := groups[i];
      assert groups[..i + 1][..i] == groups[..i];
      ghost var before := DerivedFor(m, role, groups[..i]);
      assert before + [] == before;
      var matched := IsMatch(m.Of(role), g);
      if !matched {
        continue;
      }
      var scope := ScopeOf(m, g);
      if TrimPrefix(g, m.stripPrefix) == "" || !ValidScope(scope) {
        EmptyNameInvalid(m, g);
        continue;
      }
      var entry := Grant(role, scope);
      DedupSnoc(earlier + before, entry);
      assert (earlier + before) + [entry] == earlier + (before + [entry]);
      if entry !in out {
        out := out + [entry];
      }
    }
    assert groups[..|groups|] == groups;
  }

  lemma EmptyNameInvalid(m: Mappings, g: string)
    ensures TrimPrefix(g, m.stripPrefix) == "" ==> !ValidScope(ScopeOf(m, g))
  {
  }

  method Resolve(m: Mappings, groups: seq<string>) returns (out: seq<Grant>)
    ensures out == Dedup(Derivations(m, ROLES, groups))
  {
    assert Dedup([]) == [];
    hide Dedup, DerivedFor;
    out := [];
    for i := 0 to |ROLES|
      invariant out == Dedup(Derivations(m, ROLES[..i], groups))
    {
      assert ROLES[..i + 1][..i] == ROLES[..i];
      out := ResolveRole(m, ROLES[i], groups, out, Derivations(m, ROLES[..i], groups));
    }
    assert ROLES[..|ROLES|] == ROLES;
  }

  lemma {:induction false} DerivedForIs(m: Mappings, role: Role, groups: seq<string>, x: Grant)
    ensures x in DerivedFor(m, role, groups) <==>
      exists j :: 0 <= j < |groups| && Derives(m, role, groups[j]) && x == Grant(role, ScopeOf(m, groups[j]))
  {
    hide Derives, ScopeOf;
    if groups != [] {
      var init := groups[..|groups| - 1];
      DerivedForIs(m, role, init, x);
      assert forall j :: 0 <= j < |init| ==> init[j] == groups[j];
    }
  }

  lemma {:induction false} DerivationsAre(m: Mappings, roles: seq<Role>, groups: seq<string>, x: Grant)
    ensures x in Derivations(m, roles, groups) <==>
      && x.role in roles
      && exists j :: 0 <= j < |groups| && Derives(m, x.role, groups[j]) && x.scope == ScopeOf(m, groups[j])
  {
    hide Derives, ScopeOf, DerivedFor;
    if roles != [] {
      var init, role := roles[..|roles| - 1], roles[|roles| - 1];
      assert roles == init + [role];
      DerivationsAre(m, init, groups, x);
      DerivedForIs(m, role, groups, x);
    }
  }

  /**
    Group-derived grants: exactly one for each role and each group that holds the role and names a
    valid project; none twice, none outside the scope grammar, none global.
  */
  lemma ResolvedGrants(m: Mappings, groups: seq<string>, x: Grant)
    ensures Distinct(Dedup(Derivations(m, ROLES, groups)))
    ensures x in Dedup(Derivations(m, ROLES, groups)) <==>
      exists j :: 0 <= j < |groups| && Derives(m, x.role, groups[j]) && x.scope == ScopeOf(m, groups[j])
    ensures x in Dedup(Derivations(m, ROLES, groups)) ==> ValidScope(x.scope) && x.scope != GLOBAL
  {
    DerivationsAre(m, ROLES, groups, x);
    DedupIs(Derivations(m, ROLES, groups));
    hide Dedup, Derivations;
    assert x.role in ROLES by {
      match x.role {
        case Admin => assert ROLES[0] == x.role;
        case Operator => assert ROLES[1] == x.role;
        case Developer => assert ROLES[2] == x.role;
        case Viewer => assert ROLES[3] == x.role;
        case Auditor => assert ROLES[4] == x.role;
      }
    }
    assert forall j :: 0 <= j < |groups| ==> ScopeOf(m, groups[j])[0] == 'p';
  }

  /** The project a group names: what follows the prefix, or all of it where the prefix is missing. */
  predicate NamesProject(prefix: string, group: string, name: string) {
    group == prefix + name || (group == name && !(prefix <= group))
  }

  /** Letters, digits, dashes, underscores, dots and slashes, at least one. */
  predicate PlainProject(name: string) {
    name != "" && forall i :: 0 <= i < |name| ==>
      'a' <= name[i] <= 'z' || 'A' <= name[i] <= 'Z' || '0' <= name[i] <= '9' || name[i] in {'-', '_', '.', '/'}
  }

  lemma ScopeOfIff(m: Mappings, group: string, name: string)
    ensures ScopeOf(m, group) == "project:" + name <==> NamesProject(m.stripPrefix, group, name)
  {
    var t := TrimPrefix(group, m.stripPrefix);
    assert (PROJECT + t)[|PROJECT|..] == t && ("project:" + name)[|PROJECT|..] == name;
    assert m.stripPrefix <= group ==> group == m.stripPrefix + t;
    assert (m.stripPrefix + name)[|m.stripPrefix|..] == name;
  }

  /**
    The same, on the configuration's own text: a caller holds a role in a project exactly when the project's
    name is well formed and one of the caller's groups names it and is listed for the role, by name or by a star.
  */
  lemma GroupGrantIff(m: Mappings, groups: seq<string>, role: Role, name: string)
    ensures Grant(role, "project:" + name) in Dedup(Derivations(m, ROLES, groups)) <==>
      && PlainProject(name)
      && role in m.patterns
      && exists j, i :: 0 <= j < |groups| && 0 <= i < |m.patterns[role]|
           && NamesProject(m.stripPrefix, groups[j], name) && m.patterns[role][i] in {"*", groups[j]}
  {
    var scope := "project:" + name;
    ResolvedGrants(m, groups, Grant(role, scope));
    assert ValidScope(scope) <==> PlainProject(name) by {
      assert scope[|PROJECT|..] == name && scope[0] == 'p';
    }
    forall j | 0 <= j < |groups|
      ensures ScopeOf(m, groups[j]) == scope <==> NamesProject(m.stripPrefix, groups[j], name)
    {
      ScopeOfIff(m, groups[j], name);
    }
    hide Dedup, Derivations, ScopeOf, ValidScope, PlainProject, NamesProject;
    if role in m.patterns {
      var ps := m.patterns[role];
      assert forall j :: 0 <= j < |groups| ==>
        (Matches(ps, groups[j]) <==> exists i :: 0 <= i < |ps| && ps[i] in {"*", groups[j]});
    }
  }
}
