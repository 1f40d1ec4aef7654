/**
  The storage catalog and the profiles that attach it (internal/api/storage.go,
  internal/api/profiles.go, internal/api/settings.go): what an accepted catalog
  guarantees, through section-replace edits and profile expansion, about the list of
  mounts a workload ends up with.
*/
module Storage {
  import opened Prelude
  import opened MountPaths

  // ------------------------------------------------------------------ catalog

  datatype Source = Secret | Claim

  datatype Mode = Env | File

  datatype Entry = Entry(
    name: string,
    source: Source,
    secretName: string,
    claimName: string,
    mode: Mode,
    mountPath: Option<string>,
    projects: seq<string>)

  /** The wire form; an absent optional field is the empty string. */
  datatype Wire = Wire(
    name: string,
    source: Option<string>,
    secretName: string,
    claimName: string,
    mode: string,
    mountPath: string,
    projects: seq<string>)

  type Catalog = seq<Entry>

  predicate NameEnd(c: char) {
    'a' <= c <= 'z' || '0' <= c <= '9'
  }

  /** core.IsK8sName. */
  predicate K8sName(s: string) {
    && 1 <= |s| <= 253
    && NameEnd(s[0]) && NameEnd(s[|s| - 1])
    && forall i :: 0 <= i < |s| ==> NameEnd(s[i]) || s[i] == '-' || s[i] == '.'
  }

  const MAX_NAME := 63 - |"storage-"|

  predicate StorageName(s: string) {
    K8sName(s) && '.' !in s && |s| <= MAX_NAME
  }

  function ParseSource(s: Option<string>): Option<Source> {
    match s
    case None => Some(Secret)
    case Some("secret") => Some(Secret)
    case Some("persistent_volume_claim") => Some(Claim)
    case _ => None
  }

  function ParseMode(s: string): Option<Mode> {
    match s
    case "env" => Some(Env)
    case "file" => Some(File)
    case _ => None
  }

  /** What an accepted entry satisfies. */
  predicate EntryOk(e: Entry) {
    && StorageName(e.name)
    && (if e.source.Secret? then K8sName(e.secretName) && e.claimName == ""
        else K8sName(e.claimName) && e.secretName == "")
    && (e.source.Claim? ==> e.mode.File?)
    && (if e.mode.File? then e.mountPath.Some? && Mountable(e.mountPath.value) else e.mountPath.None?)
    && "" !in e.projects
  }

  predicate Parses(w: Wire) {
    ParseSource(w.source).Some? && ParseMode(w.mode).Some?
  }

  function Convert(w: Wire): Entry
    requires Parses(w)
  {
    Entry(w.name, ParseSource(w.source).value, w.secretName, w.claimName, ParseMode(w.mode).value,
          if w.mountPath == "" then None else Some(w.mountPath), w.projects)
  }

  predicate WireOk(w: Wire) {
    Parses(w) && EntryOk(Convert(w))
  }

  /** Mount paths that are the same text, trailing slashes apart. */
  predicate SameMount(a: Option<string>, b: Option<string>) {
    a.Some? && b.Some? && TrimRight(a.value) == TrimRight(b.value)
  }

  predicate Apart(a: Entry, b: Entry) {
    a.name != b.name && !SameMount(a.mountPath, b.mountPath)
  }

  /** Sound entries, no name and, as text, no mount path used twice. */
  predicate WellFormed(c: Catalog) {
    && (forall i :: 0 <= i < |c| ==> EntryOk(c[i]))
    && (forall i, j :: 0 <= i < j < |c| ==> Apart(c[i], c[j]))
  }

  predicate Accepted(ws: seq<Wire>) {
    && (forall i :: 0 <= i < |ws| ==> WireOk(ws[i]))
    && (forall i, j :: 0 <= i < j < |ws| ==> Apart(Convert(ws[i]), Convert(ws[j])))
  }

  /** Lower-case letters and digits, with dashes and dots inside. */
  predicate PlainName(s: string, max: nat) {
    && 1 <= |s| <= max && s[0] !in {'-', '.'} && s[|s| - 1] !in {'-', '.'}
    && forall i :: 0 <= i < |s| ==> 'a' <= s[i] <= 'z' || '0' <= s[i] <= '9' || s[i] in {'-', '.'}
  }

  lemma PlainNames(s: string)
    ensures K8sName(s) <==> PlainName(s, 253)
    ensures StorageName(s) <==> PlainName(s, 55) && '.' !in s
  {
  }

  /** What makes an entry admissible, on the text it was sent as. */
  lemma WireOkIff(w: Wire)
    ensures WireOk(w) <==>
      && PlainName(w.name, 55) && '.' !in w.name
      && (if w.source == Some("persistent_volume_claim")
          then PlainName(w.claimName, 253) && w.secretName == "" && w.mode == "file"
          else w.source in {None, Some("secret")} && PlainName(w.secretName, 253) && w.claimName == "")
      && (if w.mode == "file" then Mountable(w.mountPath) else w.mode == "env" && w.mountPath == "")
      && "" !in w.projects
  {
    PlainNames(w.name);
    PlainNames(w.secretName);
    PlainNames(w.claimName);
    hide K8sName, StorageName, PlainName, Reserved;
  }

  /** The per-entry checks of storageFromWire, in its order. */
  method CheckEntry(w: Wire) returns (r: Option<Entry>)
    ensures r.Some? <==> WireOk(w)
    ensures r.Some? ==> r.value == Convert(w)
  {
    hide Reserved;
    if w.name == "" || !StorageName(w.name) {
      return None;
    }
    var source := ParseSource(w.source);
    match source {
      case None => return None;
      case Some(Secret) =>
        if w.secretName == "" || !K8sName(w.secretName) || w.claimName != "" {
          return None;
        }
      case Some(Claim) =>
        if w.claimName == "" || !K8sName(w.claimName) || w.secretName != "" {
          return None;
        }
    }
    if source.value != Secret && w.mode == "env" {
      return None;
    }
    match w.mode {
      case "env" =>
        if w.mountPath != "" {
          return None;
        }
      case "file" =>
        if w.mountPath == "" || w.mountPath[0] != '/' {
          return None;
        }
        var reserved := MountPathReserved(w.mountPath);
        if reserved {
          return None;
        }
      case _ => return None;
    }
    if "" in w.projects {
      return None;
    }
    return Some(Convert(w));
  }

  method StorageFromWire(ws: seq<Wire>) returns (r: Option<Catalog>)
    ensures r.Some? <==> Accepted(ws)
    ensures r.Some? ==> |r.value| == |ws| && forall i :: 0 <= i < |ws| ==> r.value[i] == Convert(ws[i])
    ensures r.Some? ==> WellFormed(r.value)
  {
    hide EntryOk, TrimRight;
    var out: Catalog := [];
    var seen: set<string>, mounts: set<string> := {}, {};
    for i := 0 to |ws|
      invariant |out| == i && WellFormed(out)
      invariant forall j :: 0 <= j < i ==> WireOk(ws[j]) && out[j] == Convert(ws[j])
      invariant forall n :: n in seen <==> exists j :: 0 <= j < i && out[j].name == n
      invariant forall m :: m in mounts <==>
        exists j :: 0 <= j < i && out[j].mountPath.Some? && TrimRight(out[j].mountPath.value) == m
    {
      var entry := CheckEntry(ws[i]);
      if entry.None? {
        return None;
      }
      var e := entry.value;
      if e.name in seen {
        assert exists j :: 0 <= j < i && !Apart(Convert(ws[j]), Convert(ws[i]));
        return None;
      }
      if e.mountPath.Some? {
        var key := TrimRight(e.mountPath.value);
        if key in mounts {
          assert exists j :: 0 <= j < i && !Apart(Convert(ws[j]), Convert(ws[i]));
          return None;
        }
        mounts := mounts + {key};
      }
      seen := seen + {e.name};
      assert forall j :: 0 <= j < i ==> Apart(out[j], e);
      out := out + [e];
    }
    return Some(out);
  }

  // --------------------------------------------------------------- resolution

  function Find(c: Catalog, name: string): (r: Option<Entry>)
    ensures r.Some? ==> r.value in c && r.value.name == name
    ensures r.None? ==> forall i :: 0 <= i < |c| ==> c[i].name != name
  {
    if c == [] then None
    else if c[0].name == name then Some(c[0])
    else Find(c[1..], name)
  }

  predicate AvailableTo(e: Entry, project: string) {
    e.projects == [] || project in e.projects
  }

  predicate Usable(c: Catalog, project: string, name: string) {
    Find(c, name).Some? && AvailableTo(Find(c, name).value, project)
  }

  /** Resolves exactly the duplicate-free lists of known, available names, in the order given. */
  method ResolveStorage(c: Catalog, project: string, names: seq<string>) returns (r: Option<seq<Entry>>)
    ensures r.Some? <==> Resolves(c, project, names)
    ensures r.Some? ==> |r.value| == |names|
    ensures r.Some? ==> forall i :: 0 <= i < |names| ==> Some(r.value[i]) == Find(c, names[i])
  {
    var out: seq<Entry> := [];
    var seen: set<string> := {};
    for i := 0 to |names|
      invariant |out| == i
      invariant forall n :: n in seen <==> exists j :: 0 <= j < i && names[j] == n
      invariant Distinct(names[..i])
      invariant forall j :: 0 <= j < i ==> Usable(c, project, names[j]) && Some(out[j]) == Find(c, names[j])
    {
      var name := names[i];
      if name in seen {
        return None;
      }
      seen := seen + {name};
      var entry := None;
      var k := 0;
      while k < |c| && entry.None?
        invariant 0 <= k <= |c|
        invariant Find(c, name) == if entry.Some? then entry else Find(c[k..], name)
        decreases |c| - k, entry.None?
      {
        if c[k].name == name {
          entry := Some(c[k]);
        } else {
          assert c[k..][1..] == c[k + 1..];
          k := k + 1;
        }
      }
      if entry.None? || !AvailableTo(entry.value, project) {
        return None;
      }
      out := out + [entry.value];
    }
    assert names[..|names|] == names;
    return Some(out);
  }

  // ----------------------------------------------------------------- profiles

  /** Worker groups are given by their max_replicas. */
  datatype Profile = Profile(
    name: string,
    projects: seq<string>,
    image: string,
    rayVersion: string,
    headCpu: string,
    headMemory: string,
    workerGroups: seq<nat>,
    maxWorkers: Option<nat>,
    ttlSeconds: Option<nat>,
    idleTimeoutSecs: Option<nat>,
    storage: seq<string>)

  /** The names of `extra` that `have` lacks, each once, in order of first appearance. */
  function Missing(have: seq<string>, extra: seq<string>): seq<string> {
    if extra == [] then []
    else
      var init := Missing(have, extra[..|extra| - 1]);
      var name := extra[|extra| - 1];
      if name in have || name in init then init else init + [name]
  }

  /** expandProfile's storage: the profile's names ahead of the request's own. */
  function Attached(profile: seq<string>, request: seq<string>): seq<string> {
    if profile == [] then request else profile + Missing(profile, request)
  }

  method MergeStorage(profile: seq<string>, request: seq<string>) returns (merged: seq<string>)
    ensures merged == Attached(profile, request)
  {
    merged := request;
    if |profile| > 0 {
      merged := profile;
      for i := 0 to |request|
        invariant merged == profile + Missing(profile, request[..i])
      {
        assert request[..i + 1][..i] == request[..i];
        if request[i] !in merged {
          merged := merged + [request[i]];
        }
      }
      assert request[..|request|] == request;
    }
  }

  lemma {:induction false} MissingIs(have: seq<string>, extra: seq<string>)
    ensures Distinct(Missing(have, extra))
    ensures forall n :: n in Missing(have, extra) <==> n in extra && n !in have
  {
    if extra != [] {
      var init := extra[..|extra| - 1];
      assert extra == init + [extra[|extra| - 1]];
      MissingIs(have, init);
    }
  }

  /** Where a name first stands in a list that has it. */
  function FirstOf(names: seq<string>, name: string): (i: nat)
    requires name in names
    ensures i < |names| && names[i] == name && name !in names[..i]
  {
    var n := |names| - 1;
    if name in names[..n] then
      var i := FirstOf(names[..n], name);
      assert names[..n][..i] == names[..i];
      i
    else
      assert names == names[..n] + [names[n]];
      n
  }

  /** Later names of the list of missing ones were first asked for later. */
  lemma {:induction false} MissingInOrder(have: seq<string>, extra: seq<string>, i: nat, j: nat)
    requires i < j < |Missing(have, extra)|
    ensures Missing(have, extra)[i] in extra && Missing(have, extra)[j] in extra
    ensures FirstOf(extra, Missing(have, extra)[i]) < FirstOf(extra, Missing(have, extra)[j])
  {
    var n := |extra| - 1;
    var init, name := extra[..n], extra[n];
    MissingIs(have, extra);
    MissingIs(have, init);
    var a, b := Missing(have, extra)[i], Missing(have, extra)[j];
    assert a == Missing(have, init)[i] && a in init;
    if j < |Missing(have, init)| {
      MissingInOrder(have, init, i, j);
      assert b in init;
    } else {
      assert b == name && b !in init;
    }
  }

  /** Expansion loses no name, keeps the profile's first and in order, and adds nothing twice. */
  lemma AttachedIs(profile: seq<string>, request: seq<string>)
    requires Distinct(profile)
    ensures profile <= Attached(profile, request)
    ensures profile == [] ==> Attached(profile, request) == request
    ensures forall n :: n in Attached(profile, request) <==> n in profile || n in request
    ensures Distinct(Attached(profile, request)) <==> profile != [] || Distinct(request)
  {
    MissingIs(profile, request);
    if profile != [] {
      AppendDistinct(profile, Missing(profile, request));
    }
  }

  lemma AppendDistinct(a: seq<string>, b: seq<string>)
    requires Distinct(a) && Distinct(b) && forall n :: n in b ==> n !in a
    ensures Distinct(a + b)
  {
    forall i, j | 0 <= i < j < |a + b|
      ensures (a + b)[i] != (a + b)[j]
    {
      if i < |a| <= j {
        assert (a + b)[j] in b;
      }
    }
  }

  // ---------------------------------------------------------------- expansion

  /** The fields of a cluster spec a profile may touch. */
  datatype Shape = Shape(
    image: string,
    rayVersion: string,
    headCpu: string,
    headMemory: string,
    workerGroups: seq<nat>,
    ttlSeconds: Option<nat>,
    idleTimeoutSecs: Option<nat>,
    storage: seq<string>)

  function Total(groups: seq<nat>): nat {
    if groups == [] then 0 else Total(groups[..|groups| - 1]) + groups[|groups| - 1]
  }

  /** It is the sum: of a list in two parts, the two sums; of one group, that group. */
  lemma {:induction false} TotalIsSum(a: seq<nat>, b: seq<nat>, n: nat)
    ensures Total([n]) == n && Total(a + b) == Total(a) + Total(b)
  {
    assert Total([n][..0]) == 0;
    if b == [] {
      assert a + b == a;
    } else {
      var k := |b| - 1;
      assert (a + b)[..|a + b| - 1] == a + b[..k];
      TotalIsSum(a, b[..k], n);
    }
  }

  predicate Fits(own: string, fixed: string) {
    own == "" || fixed == "" || own == fixed
  }

  predicate FieldsFit(s: Shape, p: Profile) {
    && Fits(s.image, p.image) && Fits(s.rayVersion, p.rayVersion)
    && Fits(s.headCpu, p.headCpu) && Fits(s.headMemory, p.headMemory)
  }

  function Fill(own: string, fixed: string): string {
    if own == "" then fixed else own
  }

  function Expanded(s: Shape, p: Profile): Shape {
    Shape(Fill(s.image, p.image), Fill(s.rayVersion, p.rayVersion),
          Fill(s.headCpu, p.headCpu), Fill(s.headMemory, p.headMemory),
          if s.workerGroups == [] then p.workerGroups else s.workerGroups,
          if s.ttlSeconds.None? then p.ttlSeconds else s.ttlSeconds,
          if s.idleTimeoutSecs.None? then p.idleTimeoutSecs else s.idleTimeoutSecs,
          Attached(p.storage, s.storage))
  }

  predicate WithinCap(s: Shape, p: Profile) {
    p.maxWorkers.Some? && p.maxWorkers.value > 0 ==> Total(s.workerGroups) <= p.maxWorkers.value
  }

  predicate Compatible(project: string, s: Shape, p: Profile) {
    && (p.projects == [] || project in p.projects)
    && FieldsFit(s, p)
    && (s.workerGroups == [] || p.workerGroups == [])
    && WithinCap(Expanded(s, p), p)
  }

  class ClusterSpec {
    const project: string
    var image: string
    var rayVersion: string
    var headCpu: string
    var headMemory: string
    var workerGroups: seq<nat>
    var ttlSeconds: Option<nat>
    var idleTimeoutSecs: Option<nat>
    var storage: seq<string>

    constructor (project: string, s: Shape)
      ensures this.project == project && View() == s
    {
      this.project := project;
      image, rayVersion, headCpu, headMemory := s.image, s.rayVersion, s.headCpu, s.headMemory;
      workerGroups, ttlSeconds, idleTimeoutSecs, storage := s.workerGroups, s.ttlSeconds, s.idleTimeoutSecs, s.storage;
    }

    function View(): Shape
      reads this
    {
      Shape(image, rayVersion, headCpu, headMemory, workerGroups, ttlSeconds, idleTimeoutSecs, storage)
    }

    method TotalMaxWorkers() returns (total: nat)
      ensures total == Total(workerGroups)
    {
      total := 0;
      for i := 0 to |workerGroups|
        invariant total == Total(workerGroups[..i])
      {
        assert workerGroups[..i + 1][..i] == workerGroups[..i];
        total := total + workerGroups[i];
      }
      assert workerGroups[..|workerGroups|] == workerGroups;
    }

    /** The fixed fields, the worker groups and the two default timeouts. */
    method FillFields(p: Profile) returns (ok: bool)
      modifies this
      ensures ok <==> FieldsFit(old(View()), p) && (old(workerGroups) == [] || p.workerGroups == [])
      ensures ok ==> View() == Expanded(old(View()), p).(storage := old(storage))
    {
      hide Attached, Fits, Fill;
      if !FieldsFit(View(), p) {
        return false;
      }
      image, rayVersion := Fill(image, p.image), Fill(rayVersion, p.rayVersion);
      headCpu, headMemory := Fill(headCpu, p.headCpu), Fill(headMemory, p.headMemory);
      if |workerGroups| == 0 {
        workerGroups := p.workerGroups;
      } else if |p.workerGroups| > 0 {
        return false;
      }
      if ttlSeconds.None? && p.ttlSeconds.Some? {
        ttlSeconds := p.ttlSeconds;
      }
      if idleTimeoutSecs.None? && p.idleTimeoutSecs.Some? {
        idleTimeoutSecs := p.idleTimeoutSecs;
      }
      return true;
    }

    /** Fills the spec in place; a refusal may leave it partly filled, and the caller drops it. */
    method ExpandProfile(p: Profile) returns (ok: bool)
      modifies this
      ensures ok <==> Compatible(project, old(View()), p)
      ensures ok ==> View() == Expanded(old(View()), p)
    {
      hide Attached, Total, FieldsFit, Fill;
      if p.projects != [] && project !in p.projects {
        return false;
      }
      var filled := FillFields(p);
      if !filled {
        return false;
      }
      storage := MergeStorage(p.storage, storage);
      if p.maxWorkers.Some? && p.maxWorkers.value > 0 {
        var total := TotalMaxWorkers();
        if total > p.maxWorkers.value {
          return false;
        }
      }
      return true;
    }
  }

  /** The value set by either is the value, and there is none where neither sets one. */
  predicate Took(out: string, fixed: string, own: string) {
    (fixed != "" ==> out == fixed) && (own != "" ==> out == own) && (fixed == own == "" ==> out == "")
  }

  /** Neither side sets it, or one does, or both set it alike. */
  predicate Agree(own: string, fixed: string) {
    own == "" || fixed == "" || own == fixed
  }

  /**
    A profile can be taken exactly when the project may use it, no field is set differently by both, the
    worker groups come from one side only, and together they stay within the profile's cap.
  */
  lemma CompatibleIff(project: string, s: Shape, p: Profile)
    ensures Compatible(project, s, p) <==>
      && (p.projects == [] || project in p.projects)
      && Agree(s.image, p.image) && Agree(s.rayVersion, p.rayVersion)
      && Agree(s.headCpu, p.headCpu) && Agree(s.headMemory, p.headMemory)
      && (s.workerGroups == [] || p.workerGroups == [])
      && (p.maxWorkers.None? || p.maxWorkers == Some(0) ||
          Total(s.workerGroups + p.workerGroups) <= p.maxWorkers.value)
  {
    hide Attached, Total;
    assert s.workerGroups == [] ==> s.workerGroups + p.workerGroups == p.workerGroups;
    assert p.workerGroups == [] ==> s.workerGroups + p.workerGroups == s.workerGroups;
  }

  /** The profile is taken whole: each field it fixes is in the result, and so is each field the request set. */
  lemma ExpandedTakesBoth(project: string, s: Shape, p: Profile)
    requires Compatible(project, s, p) && Distinct(p.storage)
    ensures var out := Expanded(s, p);
      && Took(out.image, p.image, s.image) && Took(out.rayVersion, p.rayVersion, s.rayVersion)
      && Took(out.headCpu, p.headCpu, s.headCpu) && Took(out.headMemory, p.headMemory, s.headMemory)
      && (p.workerGroups != [] ==> out.workerGroups == p.workerGroups)
      && (s.workerGroups != [] ==> out.workerGroups == s.workerGroups)
      && out.ttlSeconds == (if s.ttlSeconds.Some? then s.ttlSeconds else p.ttlSeconds)
      && out.idleTimeoutSecs == (if s.idleTimeoutSecs.Some? then s.idleTimeoutSecs else p.idleTimeoutSecs)
      && p.storage <= out.storage && (forall n :: n in out.storage <==> n in p.storage || n in s.storage)
      && WithinCap(out, p)
  {
    AttachedIs(p.storage, s.storage);
    hide Attached;
  }

  // ------------------------------------------------------------- policy edits

  datatype Policy = Policy(profiles: seq<Profile>, storage: Catalog)

  datatype Edit = Edit(profiles: Option<seq<Profile>>, storage: Option<seq<Wire>>)

  predicate Known(p: Policy) {
    forall i, j :: 0 <= i < |p.profiles| && 0 <= j < |p.profiles[i].storage| ==>
      Find(p.storage, p.profiles[i].storage[j]).Some?
  }

  predicate ProfilesOk(ps: seq<Profile>) {
    && (forall i :: 0 <= i < |ps| ==> ps[i].name != "" && Distinct(ps[i].storage) && "" !in ps[i].storage)
    && (forall i, j :: 0 <= i < j < |ps| ==> ps[i].name != ps[j].name)
  }

  method ProfilesReferenceKnownStorage(profiles: seq<Profile>, storage: Catalog) returns (ok: bool)
    ensures ok == Known(Policy(profiles, storage))
  {
    var known: set<string> := set i | 0 <= i < |storage| :: storage[i].name;
    for i := 0 to |profiles|
      invariant Known(Policy(profiles[..i], storage))
    {
      for j := 0 to |profiles[i].storage|
        invariant forall k :: 0 <= k < j ==> Find(storage, profiles[i].storage[k]).Some?
      {
        if profiles[i].storage[j] !in known {
          return false;
        }
      }
    }
    return true;
  }

  /** What an edit leaves behind: present sections replaced, absent ones untouched. */
  function Replaced(p: Policy, ed: Edit): Policy
    requires ed.storage.Some? ==> Accepted(ed.storage.value)
  {
    Policy(if ed.profiles.Some? then ed.profiles.value else p.profiles,
           if ed.storage.Some? then Converted(ed.storage.value) else p.storage)
  }

  function Converted(ws: seq<Wire>): (c: Catalog)
    requires Accepted(ws)
    ensures |c| == |ws| && WellFormed(c)
  {
    hide EntryOk, Apart;
    seq(|ws|, i requires 0 <= i < |ws| => Convert(ws[i]))
  }

  /** An accepted edit stores each section it carries as sent, and keeps the other as it was. */
  lemma EditStores(p: Policy, ed: Edit)
    requires ed.storage.Some? ==> Accepted(ed.storage.value)
    ensures var out := Replaced(p, ed);
      && (ed.profiles.Some? ==> out.profiles == ed.profiles.value)
      && (ed.profiles.None? ==> out.profiles == p.profiles)
      && (ed.storage.None? ==> out.storage == p.storage)
      && (ed.storage.Some? ==>
            && |out.storage| == |ed.storage.value|
            && forall i :: 0 <= i < |out.storage| ==> StoredAsSent(ed.storage.value[i], out.storage[i]))
  {
    hide EntryOk, Apart;
    if ed.storage.Some? {
      var ws := ed.storage.value;
      forall i | 0 <= i < |ws|
        ensures StoredAsSent(ws[i], Convert(ws[i]))
      {
        assert WireOk(ws[i]);
      }
    }
  }

  predicate StoredAsSent(w: Wire, e: Entry) {
    && e.name == w.name && e.secretName == w.secretName && e.claimName == w.claimName && e.projects == w.projects
    && (e.source == Claim <==> w.source == Some("persistent_volume_claim"))
    && (e.mode == File <==> w.mode == "file")
    && e.mountPath == (if w.mountPath == "" then None else Some(w.mountPath))
  }

  predicate EditOk(p: Policy, ed: Edit) {
    && (ed.profiles.Some? ==> ProfilesOk(ed.profiles.value))
    && (ed.storage.Some? ==> Accepted(ed.storage.value))
    && Known(Replaced(p, ed))
  }

  /** UpdatePolicy on these two sections; profilesFromWire's verdict is its ProfilesOk. */
  method UpdatePolicy(p: Policy, ed: Edit) returns (r: Option<Policy>)
    ensures r.Some? <==> EditOk(p, ed)
    ensures r.Some? ==> r.value == Replaced(p, ed)
  {
    hide Accepted, WellFormed, ProfilesOk, Known;
    var next := p;
    if ed.profiles.Some? && !ProfilesOk(ed.profiles.value) {
      return None;
    }
    if ed.storage.Some? {
      var storage := StorageFromWire(ed.storage.value);
      if storage.None? {
        return None;
      }
      assert storage.value == Converted(ed.storage.value);
      next := next.(storage := storage.value);
    }
    if ed.profiles.Some? {
      next := next.(profiles := ed.profiles.value);
    }
    var ok := ProfilesReferenceKnownStorage(next.profiles, next.storage);
    return if ok then Some(next) else None;
  }

  /** What edits keep of these sections. */
  predicate Coherent(p: Policy) {
    WellFormed(p.storage) && ProfilesOk(p.profiles)
  }

  lemma EditKeepsCoherent(p: Policy, ed: Edit)
    requires Coherent(p) && EditOk(p, ed)
    ensures Coherent(Replaced(p, ed)) && Known(Replaced(p, ed))
  {
    hide WellFormed, ProfilesOk, Known, Accepted;
  }

  lemma AcceptedIsKnown(p: Policy, ed: Edit)
    requires EditOk(p, ed)
    ensures Known(Replaced(p, ed))
  {
  }

  /** The mounts of a workload, as text: none reserved, no two alike, each name once. */
  predicate SoundMounts(es: seq<Entry>) {
    && (forall i :: 0 <= i < |es| && es[i].mountPath.Some? ==> Mountable(es[i].mountPath.value))
    && (forall i, j :: 0 <= i < j < |es| ==> Apart(es[i], es[j]))
  }

  lemma ResolvedMounts(c: Catalog, names: seq<string>, es: seq<Entry>)
    requires WellFormed(c) && Distinct(names) && |es| == |names|
    requires forall i :: 0 <= i < |es| ==> Some(es[i]) == Find(c, names[i])
    ensures SoundMounts(es)
  {
    hide Mountable, SameMount;
    forall i | 0 <= i < |es|
      ensures es[i] in c && es[i].name == names[i]
    {
    }
    forall i, j | 0 <= i < j < |es|
      ensures Apart(es[i], es[j])
    {
      var a :| 0 <= a < |c| && c[a] == es[i];
      var b :| 0 <= b < |c| && c[b] == es[j];
      assert a != b;
      ApartSym(c[a], c[b]);
    }
  }

  lemma ApartSym(a: Entry, b: Entry)
    ensures Apart(a, b) == Apart(b, a)
  {
  }

  /**
    For every profile's list, every well-formed catalog, every request and every resolution of the expanded list: the
    profile's entries come first and in order, every requested name is attached, and as text no mount
    path is reserved and no two are alike.
  */
  lemma WorkloadMounts(profile: seq<string>, c: Catalog, request: seq<string>, es: seq<Entry>)
    requires Distinct(profile) && WellFormed(c)
    requires var names := Attached(profile, request);
      && Distinct(names) && |es| == |names|
      && forall k :: 0 <= k < |es| ==> Some(es[k]) == Find(c, names[k])
    ensures SoundMounts(es)
    ensures |profile| <= |es| && forall k :: 0 <= k < |profile| ==> es[k].name == profile[k]
    ensures forall n :: n in request ==> exists k :: 0 <= k < |es| && es[k].name == n
  {
    var names := Attached(profile, request);
    AttachedIs(profile, request);
    ResolvedMounts(c, names, es);
    hide Attached, SoundMounts, WellFormed;
    assert forall k :: 0 <= k < |es| ==> es[k].name == names[k];
    forall n | n in request
      ensures exists k :: 0 <= k < |es| && es[k].name == n
    {
      assert n in names;
      var k :| 0 <= k < |names| && names[k] == n;
      assert es[k].name == n;
    }
  }

  /**
    Where mount paths are written plainly, no two mounts of a workload are one directory, and none takes or
    hides a reserved directory but `/home`.
  */
  lemma PlainMountsAreSound(es: seq<Entry>)
    requires SoundMounts(es)
    requires forall i :: 0 <= i < |es| && es[i].mountPath.Some? ==> Plain(es[i].mountPath.value)
    ensures forall i, j :: 0 <= i < j < |es| && es[i].mountPath.Some? && es[j].mountPath.Some? ==>
      Place(es[i].mountPath.value) != Place(es[j].mountPath.value)
    ensures forall i :: 0 <= i < |es| && es[i].mountPath.Some? ==>
      (Clashes(es[i].mountPath.value) <==> TrimRight(es[i].mountPath.value) == "/home")
  {
    hide Plain, Place, Clashes, Mountable, TrimRight;
    forall i, j | 0 <= i < j < |es| && es[i].mountPath.Some? && es[j].mountPath.Some?
      ensures Place(es[i].mountPath.value) != Place(es[j].mountPath.value)
    {
      assert Apart(es[i], es[j]);
      PlainSamePlace(es[i].mountPath.value, es[j].mountPath.value);
    }
    forall i | 0 <= i < |es| && es[i].mountPath.Some?
      ensures Clashes(es[i].mountPath.value) <==> TrimRight(es[i].mountPath.value) == "/home"
    {
      PlainClashesIff(es[i].mountPath.value);
    }
  }

  /** A Secret mounted at a path. */
  function Mounted(name: string, path: string): Wire {
    Wire(name, None, "k", "", "file", path, [])
  }

  lemma MountedOk(name: string, path: string)
    requires Mountable(path) && StorageName(name)
    ensures WireOk(Mounted(name, path))
    ensures Convert(Mounted(name, path)).name == name && Convert(Mounted(name, path)).mountPath == Some(path)
  {
    hide Reserved, StorageName;
    assert K8sName("k");
    assert ParseMode("file") == Some(File);
  }

  lemma TwoAccepted(a: Wire, b: Wire)
    requires WireOk(a) && WireOk(b) && Apart(Convert(a), Convert(b))
    ensures Accepted([a, b])
  {
    hide WireOk, Apart, Convert;
  }

  lemma ShortNames()
    ensures StorageName("a") && StorageName("b")
  {
  }

  /** Where they are not, an accepted catalog can mount two entries over one directory. */
  lemma AliasedMounts()
    ensures exists ws: seq<Wire> :: Accepted(ws) && |ws| == 2 && Place(ws[0].mountPath) == Place(ws[1].mountPath)
  {
    hide Mountable, Place, TrimRight, StorageName, WireOk, Accepted, Convert;
    ShortNames();
    Aliases();
    var a, b := Mounted("a", "/data"), Mounted("b", "//data");
    MountedOk("a", "/data");
    MountedOk("b", "//data");
    TwoAccepted(a, b);
    assert Accepted([a, b]) && Place([a, b][0].mountPath) == Place([a, b][1].mountPath);
  }

  /** What resolveStorage accepts. */
  predicate Resolves(c: Catalog, project: string, names: seq<string>) {
    Distinct(names) && forall k :: 0 <= k < |names| ==> Usable(c, project, names[k])
  }

  /** An entry of that name, open to all or to the project by name. */
  predicate Offers(c: Catalog, project: string, name: string) {
    exists i :: 0 <= i < |c| && c[i].name == name && (c[i].projects == [] || project in c[i].projects)
  }

  /** Against a catalog whose names differ, exactly the lists of differing names that are all on offer. */
  lemma ResolvesIff(c: Catalog, project: string, names: seq<string>)
    requires forall i, j :: 0 <= i < j < |c| ==> c[i].name != c[j].name
    ensures Resolves(c, project, names) <==>
      && (forall i, j :: 0 <= i < j < |names| ==> names[i] != names[j])
      && forall k :: 0 <= k < |names| ==> Offers(c, project, names[k])
  {
    forall k | 0 <= k < |names|
      ensures Usable(c, project, names[k]) <==> Offers(c, project, names[k])
    {
      var found := Find(c, names[k]);
      if found.Some? {
        var i :| 0 <= i < |c| && c[i] == found.value;
      }
    }
    hide Usable, Offers;
  }

  /**
    An expanded list resolves against a catalog, not necessarily the one the profile was checked against, exactly when
    the profile's names still exist there and are available, the request's own do and are, and, without
    profile storage, the request does not repeat itself.
  */
  lemma ExpandedResolves(profile: seq<string>, c: Catalog, request: seq<string>, project: string)
    requires Distinct(profile)
    ensures Resolves(c, project, Attached(profile, request)) <==>
      && (profile != [] || Distinct(request))
      && (forall k :: 0 <= k < |profile| ==> Usable(c, project, profile[k]))
      && (forall k :: 0 <= k < |request| ==> Usable(c, project, request[k]))
  {
    var names := Attached(profile, request);
    AttachedIs(profile, request);
    hide Attached, Find, AvailableTo, Distinct;
    UsableIn(c, project, names);
    UsableIn(c, project, profile);
    UsableIn(c, project, request);
  }

  lemma UsableIn(c: Catalog, project: string, names: seq<string>)
    ensures (forall k :: 0 <= k < |names| ==> Usable(c, project, names[k])) <==>
      forall n :: n in names ==> Usable(c, project, n)
  {
    hide Usable;
  }

  /** In one policy whose profiles name known storage, a name only the profile mentions is never the unknown one. */
  lemma ProfileNamesExist(p: Policy, i: nat, project: string)
    requires Known(p) && i < |p.profiles|
    ensures forall k :: 0 <= k < |p.profiles[i].storage| ==> Find(p.storage, p.profiles[i].storage[k]).Some?
  {
  }
}
