/**
  The environment catalog (internal/api/environments.go): what a whole-catalog edit
  must satisfy, the lifecycle moves it may perform, and what every run of edits keeps.

  An edit is decided against the catalog its handler read and written some time later,
  with nothing held in between (internal/api/settings.go). So a history is a race: a
  sequence of catalogs, and for each landing the catalog it had read. A run is the race
  in which every landing had read the catalog it lands on, as when edits come one at a time.
*/
module EnvironmentCatalog {
  import opened Prelude
  import opened PackageNames
  import opened RuntimeEnv

  datatype Status = Draft | Published | Deprecated

  datatype ScanStatus = Clean | Failed | Pending

  /** A catalog entry; a hatch of zero bytes is no hatch. */
  datatype Environment = Environment(
    name: string,
    status: Status,
    publishedBy: Option<string>,
    publishedAt: Option<int>,
    baseImage: string,
    packages: seq<string>,
    envVars: map<string, string>,
    hatch: Document,
    projects: seq<string>,
    scan: Option<ScanStatus>)

  type Catalog = seq<Environment>

  /** The wire form; status and scan are still free text. */
  datatype Wire = Wire(
    name: string,
    status: Option<string>,
    publishedBy: Option<string>,
    publishedAt: Option<int>,
    baseImage: string,
    packages: seq<string>,
    envVars: map<string, string>,
    hatch: Document,
    projects: seq<string>,
    scan: Option<string>)

  function ParseStatus(s: Option<string>): Option<Status> {
    match s
    case None => Some(Draft)
    case Some("draft") => Some(Draft)
    case Some("published") => Some(Published)
    case Some("deprecated") => Some(Deprecated)
    case _ => None
  }

  function ParseScan(s: Option<string>): Option<Option<ScanStatus>> {
    match s
    case None => Some(None)
    case Some("clean") => Some(Some(Clean))
    case Some("failed") => Some(Some(Failed))
    case Some("pending") => Some(Some(Pending))
    case _ => None
  }

  // ------------------------------------------------------ admissible entries

  predicate LabelChar(c: char) {
    'a' <= c <= 'z' || '0' <= c <= '9'
  }

  /** An RFC 1123 label of at most 63 characters. */
  predicate Label(s: string) {
    && 1 <= |s| <= 63
    && LabelChar(s[0]) && LabelChar(s[|s| - 1])
    && forall i :: 0 <= i < |s| ==> LabelChar(s[i]) || s[i] == '-'
  }

  function Vars(doc: Fields): Fields {
    if "env_vars" in doc && doc["env_vars"].Map? then doc["env_vars"].fields else map[]
  }

  /** environmentEscapeHatchDisjoint: the hatch decodes and fixes nothing the structured fields fix. */
  predicate HatchDisjoint(packages: seq<string>, envVars: map<string, string>, hatch: Content) {
    match hatch
    case NullDoc => true
    case Mapping(doc) => (packages != [] ==> "pip" !in doc) && Vars(doc).Keys !! envVars.Keys
    case _ => false
  }

  /** What an accepted entry's content satisfies. */
  predicate Sound(host: Hosts, packages: seq<string>, envVars: map<string, string>, hatch: Document) {
    && (forall i :: 0 <= i < |packages| ==> IsPinned(packages[i]))
    && "" !in envVars
    && (hatch.bytes > 0 ==> Valid(DEFAULT, host, hatch) && HatchDisjoint(packages, envVars, hatch.content))
  }

  predicate EntrySound(host: Hosts, e: Environment) {
    Sound(host, e.packages, e.envVars, e.hatch)
  }

  predicate WireOk(host: Hosts, w: Wire) {
    && Label(w.name)
    && ParseStatus(w.status).Some? && ParseScan(w.scan).Some?
    && Sound(host, w.packages, w.envVars, w.hatch)
    && "" !in w.projects
  }

  function Convert(w: Wire): Environment
    requires ParseStatus(w.status).Some? && ParseScan(w.scan).Some?
  {
    Environment(w.name, ParseStatus(w.status).value, w.publishedBy, w.publishedAt, w.baseImage,
                w.packages, w.envVars, w.hatch, w.projects, ParseScan(w.scan).value)
  }

  predicate FreshName(ws: seq<Wire>, i: nat)
    requires i < |ws|
  {
    forall j :: 0 <= j < i ==> ws[j].name != ws[i].name
  }

  predicate WireAccepted(host: Hosts, ws: seq<Wire>) {
    forall i :: 0 <= i < |ws| ==> WireOk(host, ws[i]) && FreshName(ws, i)
  }

  /** The name rule, spelled out: at most 63 lower-case letters, digits and dashes, no dash at either end. */
  predicate PlainLabel(s: string) {
    && 1 <= |s| <= 63 && s[0] != '-' && s[|s| - 1] != '-'
    && forall i :: 0 <= i < |s| ==> s[i] == '-' || 'a' <= s[i] <= 'z' || '0' <= s[i] <= '9'
  }

  /** A hatch the governed default admits, beside fields it does not repeat. */
  ghost predicate HatchFits(w: Wire) {
    && w.hatch.bytes <= 65536
    && (w.hatch.content.NullDoc? ||
        (w.hatch.content.Mapping? && GovernedDefault(w.hatch.content.fields)
         && ("pip" in w.hatch.content.fields ==> w.packages == [])
         && forall k :: k in w.envVars && "env_vars" in w.hatch.content.fields ==>
              k !in w.hatch.content.fields["env_vars"].fields))
  }

  lemma HatchFitsIff(host: Hosts, w: Wire)
    requires w.hatch.bytes > 0
    ensures Valid(DEFAULT, host, w.hatch) && HatchDisjoint(w.packages, w.envVars, w.hatch.content) <==> HatchFits(w)
  {
    assert DEFAULT.BytesCap() == 65536;
    if w.hatch.content.Mapping? {
      var doc := w.hatch.content.fields;
      DefaultAdmits(host, doc);
      hide DefaultPip, ConfigWithin, LocalPath, LocalPaths, FieldsOk;
      if GovernedDefault(doc) {
        assert Vars(doc).Keys !! w.envVars.Keys <==> forall k :: k in w.envVars ==> k !in Vars(doc);
      }
    }
  }

  lemma TextsParse(w: Wire)
    ensures ParseStatus(w.status).Some? <==> w.status in {None, Some("draft"), Some("published"), Some("deprecated")}
    ensures ParseScan(w.scan).Some? <==> w.scan in {None, Some("clean"), Some("failed"), Some("pending")}
  {
  }

  lemma SoundIff(host: Hosts, w: Wire)
    ensures Sound(host, w.packages, w.envVars, w.hatch) <==>
      && (forall i :: 0 <= i < |w.packages| ==> PinnedForm(w.packages[i]))
      && "" !in w.envVars
      && (w.hatch.bytes == 0 || HatchFits(w))
  {
    hide Valid, HatchDisjoint, HatchFits, PinnedForm, IsPinned;
    forall i | 0 <= i < |w.packages|
      ensures IsPinned(w.packages[i]) <==> PinnedForm(w.packages[i])
    {
      PinnedIff(w.packages[i]);
    }
    if w.hatch.bytes > 0 {
      HatchFitsIff(host, w);
    }
  }

  /** What makes an entry admissible, on its text and its trees. */
  lemma WireOkIff(host: Hosts, w: Wire)
    ensures WireOk(host, w) <==>
      && PlainLabel(w.name)
      && w.status in {None, Some("draft"), Some("published"), Some("deprecated")}
      && w.scan in {None, Some("clean"), Some("failed"), Some("pending")}
      && (forall i :: 0 <= i < |w.packages| ==> PinnedForm(w.packages[i]))
      && "" !in w.envVars && "" !in w.projects
      && (w.hatch.bytes == 0 || HatchFits(w))
  {
    assert Label(w.name) <==> PlainLabel(w.name);
    TextsParse(w);
    SoundIff(host, w);
    hide Label, PlainLabel, ParseStatus, ParseScan, Sound, HatchFits, PinnedForm;
  }

  /** Accepts exactly the catalogs of admissible, distinctly named entries; a refusal names the first that is not. */
  method EnvironmentsFromWire(host: Hosts, ws: seq<Wire>) returns (r: Result<Catalog, nat>)
    ensures r.Ok? <==> WireAccepted(host, ws)
    ensures r.Ok? ==> |r.value| == |ws| && forall i :: 0 <= i < |ws| ==> r.value[i] == Convert(ws[i])
    ensures r.Ok? ==> forall i :: 0 <= i < |ws| ==>
      && r.value[i].name == ws[i].name && r.value[i].baseImage == ws[i].baseImage
      && r.value[i].packages == ws[i].packages && r.value[i].envVars == ws[i].envVars
      && r.value[i].hatch == ws[i].hatch && r.value[i].projects == ws[i].projects
      && r.value[i].publishedBy == ws[i].publishedBy && r.value[i].publishedAt == ws[i].publishedAt
    ensures r.Err? ==>
      && r.error < |ws|
      && WireAccepted(host, ws[..r.error])
      && !(WireOk(host, ws[r.error]) && FreshName(ws, r.error))
  {
    hide Sound, Label;
    var out: Catalog := [];
    var seen: set<string> := {};
    for i := 0 to |ws|
      invariant |out| == i
      invariant forall j :: 0 <= j < i ==> WireOk(host, ws[j]) && FreshName(ws, j)
      invariant forall j :: 0 <= j < i ==> out[j] == Convert(ws[j])
      invariant forall n :: n in seen <==> exists j :: 0 <= j < i && ws[j].name == n
    {
      if !Label(ws[i].name) || ws[i].name in seen {
        return Err(i);
      }
      seen := seen + {ws[i].name};
      if !WireOk(host, ws[i]) {
        return Err(i);
      }
      out := out + [Convert(ws[i])];
    }
    return Ok(out);
  }

  // -------------------------------------------------------------- transitions

  /** The stored entry of that name; the last one when a seeded catalog repeats a name. */
  function Lookup(c: Catalog, name: string): (r: Option<Environment>)
    ensures r.Some? <==> exists i :: 0 <= i < |c| && c[i].name == name
    ensures r.Some? ==> r.value.name == name && r.value in c
  {
    if c == [] then None
    else if c[|c| - 1].name == name then Some(c[|c| - 1])
    else Lookup(c[..|c| - 1], name)
  }

  function StatusOf(prev: Option<Environment>): Option<Status> {
    if prev.Some? then Some(prev.value.status) else None
  }

  predicate LegalMove(from: Option<Status>, to: Status) {
    && !(from == Some(Published) && to == Draft)
    && !(from == Some(Draft) && to == Deprecated)
    && !(from == Some(Deprecated) && to == Published)
  }

  function PublisherOf(prev: Option<Environment>, e: Environment, publisher: Option<string>): Option<string> {
    match e.status
    case Draft => None
    case Deprecated => e.publishedBy
    case Published =>
      if StatusOf(prev) == Some(Published) then (if e.publishedBy.Some? then e.publishedBy else prev.value.publishedBy)
      else if publisher.Some? then publisher else e.publishedBy
  }

  function PublishTime(prev: Option<Environment>, e: Environment, now: int): Option<int> {
    match e.status
    case Draft => None
    case Deprecated => e.publishedAt
    case Published =>
      if e.publishedAt.Some? then e.publishedAt
      else if StatusOf(prev) == Some(Published) then prev.value.publishedAt
      else Some(now)
  }

  predicate SameContent(a: Environment, b: Environment) {
    a.baseImage == b.baseImage && a.packages == b.packages
  }

  function Settled(prev: Option<Environment>, e: Environment, publisher: Option<string>, now: int): Environment {
    e.(publishedBy := PublisherOf(prev, e, publisher),
       publishedAt := PublishTime(prev, e, now),
       scan := if prev.Some? && !SameContent(prev.value, e) then None else e.scan)
  }

  predicate Attributed(e: Environment) {
    e.publishedBy.Some? && e.publishedAt.Some?
  }

  predicate Accepts(prev: Option<Environment>, e: Environment, publisher: Option<string>, now: int) {
    && LegalMove(StatusOf(prev), e.status)
    && (e.status.Published? ==> Attributed(Settled(prev, e, publisher, now)))
  }

  datatype Action = Publish | Deprecate

  datatype Event = Event(action: Action, name: string)

  function EventOf(prev: Option<Environment>, e: Environment): seq<Event> {
    if e.status.Published? && StatusOf(prev) != Some(Published) then [Event(Publish, e.name)]
    else if e.status.Deprecated? && StatusOf(prev) == Some(Published) then [Event(Deprecate, e.name)]
    else []
  }

  function Events(stored: Catalog, incoming: Catalog): seq<Event> {
    if incoming == [] then []
    else
      var e := incoming[|incoming| - 1];
      Events(stored, incoming[..|incoming| - 1]) + EventOf(Lookup(stored, e.name), e)
  }

  /** Indexing the stored catalog by name. */
  method ByName(stored: Catalog) returns (m: map<string, Environment>)
    ensures forall n :: n in m <==> Lookup(stored, n).Some?
    ensures forall n :: n in m ==> m[n] == Lookup(stored, n).value
  {
    m := map[];
    for i := 0 to |stored|
      invariant forall n :: n in m <==> Lookup(stored[..i], n).Some?
      invariant forall n :: n in m ==> m[n] == Lookup(stored[..i], n).value
    {
      assert stored[..i + 1][..i] == stored[..i];
      m := m[stored[i].name := stored[i]];
    }
    assert stored[..|stored|] == stored;
  }

  method SettlePublish(prev: Option<Environment>, e: Environment, publisher: Option<string>, now: int)
    returns (out: Environment)
    requires e.status.Published?
    ensures out == e.(publishedBy := PublisherOf(prev, e, publisher), publishedAt := PublishTime(prev, e, now))
  {
    out := e;
    if prev.None? || prev.value.status != Published {
      if publisher.Some? {
        out := out.(publishedBy := publisher);
      }
      if out.publishedAt.None? {
        out := out.(publishedAt := Some(now));
      }
    } else {
      if out.publishedBy.None? {
        out := out.(publishedBy := prev.value.publishedBy);
      }
      if out.publishedAt.None? {
        out := out.(publishedAt := prev.value.publishedAt);
      }
    }
  }

  /** One entry of an edit. */
  method Transition(prev: Option<Environment>, e: Environment, publisher: Option<string>, now: int)
    returns (r: Result<Environment, ()>, events: seq<Event>)
    ensures r.Ok? <==> Accepts(prev, e, publisher, now)
    ensures r.Ok? ==> r.value == Settled(prev, e, publisher, now) && events == EventOf(prev, e)
  {
    var out := e;
    events := [];
    var from := if prev.Some? then prev.value.status else Draft;
    match e.status {
      case Draft =>
        if prev.Some? && from == Published {
          return Err(()), [];
        }
        out := out.(publishedBy := None, publishedAt := None);
      case Deprecated =>
        match from {
          case Draft =>
            if prev.Some? {
              return Err(()), [];
            }
          case Published => events := [Event(Deprecate, e.name)];
          case Deprecated =>
        }
      case Published =>
        if prev.Some? && from == Deprecated {
          return Err(()), [];
        }
        out := SettlePublish(prev, e, publisher, now);
        if prev.None? || from == Draft {
          events := [Event(Publish, e.name)];
        }
        if out.publishedBy.None? || out.publishedAt.None? {
          return Err(()), [];
        }
    }
    if prev.Some? && (prev.value.baseImage != out.baseImage || prev.value.packages != out.packages) {
      out := out.(scan := None);
    }
    r := Ok(out);
  }

  predicate EditAccepted(stored: Catalog, incoming: Catalog, publisher: Option<string>, now: int) {
    forall i :: 0 <= i < |incoming| ==> Accepts(Lookup(stored, incoming[i].name), incoming[i], publisher, now)
  }

  predicate SettledAll(stored: Catalog, incoming: Catalog, publisher: Option<string>, now: int, out: Catalog) {
    && |out| == |incoming|
    && forall i :: 0 <= i < |out| ==> out[i] == Settled(Lookup(stored, incoming[i].name), incoming[i], publisher, now)
  }

  method ApplyEnvironmentTransitions(stored: Catalog, incoming: Catalog, publisher: Option<string>, now: int)
    returns (r: Result<Catalog, nat>, events: seq<Event>)
    ensures r.Ok? <==> EditAccepted(stored, incoming, publisher, now)
    ensures r.Ok? ==> SettledAll(stored, incoming, publisher, now, r.value) && events == Events(stored, incoming)
    ensures r.Err? ==>
      && r.error < |incoming|
      && EditAccepted(stored, incoming[..r.error], publisher, now)
      && !Accepts(Lookup(stored, incoming[r.error].name), incoming[r.error], publisher, now)
  {
    hide Accepts, Settled, Lookup, EventOf;
    var byName := ByName(stored);
    var out: Catalog := [];
    events := [];
    for i := 0 to |incoming|
      invariant EditAccepted(stored, incoming[..i], publisher, now)
      invariant SettledAll(stored, incoming[..i], publisher, now, out)
      invariant events == Events(stored, incoming[..i])
    {
      var e := incoming[i];
      var prev := if e.name in byName then Some(byName[e.name]) else None;
      assert prev == Lookup(stored, e.name);
      var settled, ev := Transition(prev, e, publisher, now);
      if settled.Err? {
        return Err(i), [];
      }
      assert incoming[..i + 1][..i] == incoming[..i];
      out := out + [settled.value];
      events := events + ev;
    }
    assert incoming[..|incoming|] == incoming;
    r := Ok(out);
  }

  // -------------------------------------------------------------------- runs

  datatype Edit = Edit(wire: seq<Wire>, publisher: Option<string>, now: int)

  function Incoming(host: Hosts, ed: Edit): (c: Catalog)
    requires WireAccepted(host, ed.wire)
    ensures |c| == |ed.wire| && forall i :: 0 <= i < |c| ==> c[i] == Convert(ed.wire[i])
    ensures forall i, j :: 0 <= i < j < |c| ==> c[i].name != c[j].name
  {
    assert forall i, j :: 0 <= i < j < |ed.wire| ==> FreshName(ed.wire, j) && ed.wire[i].name != ed.wire[j].name;
    seq(|ed.wire|, i requires 0 <= i < |ed.wire| => Convert(ed.wire[i]))
  }

  /** An accepted edit of the environments section takes c to d. */
  ghost predicate Step(host: Hosts, c: Catalog, ed: Edit, d: Catalog) {
    && WireAccepted(host, ed.wire)
    && EditAccepted(c, Incoming(host, ed), ed.publisher, ed.now)
    && SettledAll(c, Incoming(host, ed), ed.publisher, ed.now, d)
  }

  /** An edit that read `base` lands as d; one that leaves this section out carries along what it read. */
  ghost predicate Lands(host: Hosts, base: Catalog, ed: Option<Edit>, d: Catalog) {
    if ed.None? then d == base else Step(host, base, ed.value, d)
  }

  ghost predicate IsRace(host: Hosts, cs: seq<Catalog>, seen: seq<Catalog>, eds: seq<Option<Edit>>) {
    && |cs| == |eds| + 1 && |seen| == |eds|
    && forall k :: 0 <= k < |eds| ==> Lands(host, seen[k], eds[k], cs[k + 1])
  }

  ghost predicate IsRun(host: Hosts, cs: seq<Catalog>, eds: seq<Option<Edit>>) {
    |cs| == |eds| + 1 && IsRace(host, cs, cs[..|eds|], eds)
  }

  lemma DistinctLookup(c: Catalog, i: nat)
    requires i < |c| && forall j, k :: 0 <= j < k < |c| ==> c[j].name != c[k].name
    ensures Lookup(c, c[i].name) == Some(c[i])
  {
  }

  lemma StepNames(host: Hosts, c: Catalog, ed: Edit, d: Catalog)
    requires Step(host, c, ed, d)
    ensures forall j, k :: 0 <= j < k < |d| ==> d[j].name != d[k].name
  {
    var inc := Incoming(host, ed);
    assert forall j :: 0 <= j < |d| ==> d[j].name == inc[j].name;
  }

  /** How one name moves across one accepted edit. */
  lemma StepMoves(host: Hosts, c: Catalog, ed: Edit, d: Catalog, n: string) returns (e: Environment)
    requires Step(host, c, ed, d)
    ensures Lookup(d, n).Some? ==>
      && e in Incoming(host, ed) && e.name == n
      && Accepts(Lookup(c, n), e, ed.publisher, ed.now)
      && Lookup(d, n).value == Settled(Lookup(c, n), e, ed.publisher, ed.now)
  {
    if Lookup(d, n).Some? {
      var inc := Incoming(host, ed);
      var i :| 0 <= i < |d| && d[i].name == n;
      StepNames(host, c, ed, d);
      DistinctLookup(d, i);
      e := inc[i];
    } else {
      e :| true;
    }
  }

  function StatusAt(c: Catalog, n: string): Option<Status> {
    StatusOf(Lookup(c, n))
  }

  lemma StepIsLegal(host: Hosts, c: Catalog, ed: Edit, d: Catalog, n: string)
    requires Step(host, c, ed, d)
    ensures StatusAt(d, n).Some? ==> LegalMove(StatusAt(c, n), StatusAt(d, n).value)
  {
    var _ := StepMoves(host, c, ed, d, n);
  }

  predicate MoveLegal(c: Catalog, d: Catalog, n: string) {
    StatusAt(c, n).Some? && StatusAt(d, n).Some? ==> LegalMove(StatusAt(c, n), StatusAt(d, n).value)
  }

  /** From i to j a name makes a forbidden move, and is in no third status, nor gone, in between. */
  ghost predicate ShortCut(cs: seq<Catalog>, i: nat, j: nat, n: string)
    requires i < j < |cs|
  {
    && !MoveLegal(cs[i], cs[j], n)
    && forall k :: i < k < j ==> StatusAt(cs[k], n) == StatusAt(cs[i], n) || StatusAt(cs[k], n) == StatusAt(cs[j], n)
  }

  lemma {:induction false} ShortCutHasIllegalMove(cs: seq<Catalog>, i: nat, j: nat, n: string)
    requires i < j < |cs| && ShortCut(cs, i, j, n)
    ensures exists k :: i <= k < j && !MoveLegal(cs[k], cs[k + 1], n)
    decreases j - i
  {
    hide StatusAt;
    if i + 1 == j || StatusAt(cs[j - 1], n) == StatusAt(cs[i], n) {
      assert !MoveLegal(cs[j - 1], cs[j - 1 + 1], n);
    } else {
      ShortCutHasIllegalMove(cs, i, j - 1, n);
    }
  }

  /**
    A history has no short cut for a name exactly when every single landing moves it legally. The forbidden
    moves need a third status, or removal, strictly in between: a draft from deprecated back to
    published, a deprecation from published back to draft, a publish from draft to deprecated.
  */
  lemma NoShortCutIff(cs: seq<Catalog>, n: string)
    ensures (forall i, j :: 0 <= i < j < |cs| ==> !ShortCut(cs, i, j, n)) <==>
      forall k :: 0 <= k < |cs| - 1 ==> MoveLegal(cs[k], cs[k + 1], n)
  {
    hide MoveLegal, StatusAt;
    if k :| 0 <= k < |cs| - 1 && !MoveLegal(cs[k], cs[k + 1], n) {
      assert ShortCut(cs, k, k + 1, n);
    }
    if i, j :| 0 <= i < j < |cs| && ShortCut(cs, i, j, n) {
      ShortCutHasIllegalMove(cs, i, j, n);
    }
  }

  /** Runs have none: an edit decided against the catalog it lands on makes legal moves only. */
  lemma NoShortCut(host: Hosts, cs: seq<Catalog>, eds: seq<Option<Edit>>, i: nat, j: nat, n: string)
    requires IsRun(host, cs, eds) && i < j < |cs|
    ensures !ShortCut(cs, i, j, n)
  {
    hide ShortCut, StatusAt, Step;
    forall k | 0 <= k < |cs| - 1
      ensures MoveLegal(cs[k], cs[k + 1], n)
    {
      assert Lands(host, cs[..|eds|][k], eds[k], cs[k + 1]);
      if eds[k].Some? {
        StepIsLegal(host, cs[k], eds[k].value, cs[k + 1], n);
      }
    }
    NoShortCutIff(cs, n);
  }

  /**
    A landing moves every name legally exactly when the edit's entries pass the transition check
    against the row as it is now.
  */
  lemma LandingLegalIff(host: Hosts, base: Catalog, ed: Edit, d: Catalog, c: Catalog)
    requires Step(host, base, ed, d)
    ensures (forall n :: MoveLegal(c, d, n)) <==>
      forall i :: 0 <= i < |Incoming(host, ed)| ==>
        LegalMove(StatusAt(c, Incoming(host, ed)[i].name), Incoming(host, ed)[i].status)
  {
    var inc := Incoming(host, ed);
    forall i | 0 <= i < |inc|
      ensures StatusAt(d, inc[i].name) == Some(inc[i].status)
    {
      EditEstablishes(host, base, ed, d, i);
    }
    hide Lookup, Step, Incoming;
    forall n | StatusAt(d, n).Some?
      ensures exists i :: 0 <= i < |inc| && inc[i].name == n
    {
      var e := StepMoves(host, base, ed, d, n);
    }
    if forall n :: MoveLegal(c, d, n) {
      forall i | 0 <= i < |inc|
        ensures LegalMove(StatusAt(c, inc[i].name), inc[i].status)
      {
        assert MoveLegal(c, d, inc[i].name);
      }
    }
  }

  /** The moves an edit may make of a stored entry, and who must be known for a publish. */
  predicate MayMove(was: Option<Environment>, w: Wire, publisher: Option<string>) {
    && (was.Some? && was.value.status == Published ==> w.status in {Some("published"), Some("deprecated")})
    && (was.Some? && was.value.status == Draft ==> w.status != Some("deprecated"))
    && (was.Some? && was.value.status == Deprecated ==> w.status != Some("published"))
    && (w.status == Some("published") ==>
          if was.Some? && was.value.status == Published
          then
            && (w.publishedBy.Some? || was.value.publishedBy.Some?)
            && (w.publishedAt.Some? || was.value.publishedAt.Some?)
          else publisher.Some? || w.publishedBy.Some?)
  }

  lemma MayMoveIff(was: Option<Environment>, w: Wire, publisher: Option<string>, now: int)
    requires ParseStatus(w.status).Some? && ParseScan(w.scan).Some?
    ensures Accepts(was, Convert(w), publisher, now) <==> MayMove(was, w, publisher)
  {
  }

  /** An edit is accepted exactly when its entries are admissible, their names distinct and their moves allowed. */
  lemma StepIff(host: Hosts, c: Catalog, ed: Edit)
    ensures (exists d :: Step(host, c, ed, d)) <==>
      && (forall i :: 0 <= i < |ed.wire| ==> WireOk(host, ed.wire[i]))
      && (forall i, j :: 0 <= i < j < |ed.wire| ==> ed.wire[i].name != ed.wire[j].name)
      && (forall i :: 0 <= i < |ed.wire| ==> MayMove(Lookup(c, ed.wire[i].name), ed.wire[i], ed.publisher))
  {
    hide Sound, Label, MayMove, Accepts, Lookup;
    assert WireAccepted(host, ed.wire) <==>
      && (forall i :: 0 <= i < |ed.wire| ==> WireOk(host, ed.wire[i]))
      && (forall i, j :: 0 <= i < j < |ed.wire| ==> ed.wire[i].name != ed.wire[j].name) by {
      FreshIffDistinct(ed.wire);
    }
    if WireAccepted(host, ed.wire) {
      var inc := Incoming(host, ed);
      forall i | 0 <= i < |ed.wire|
        ensures Accepts(Lookup(c, inc[i].name), inc[i], ed.publisher, ed.now) <==>
          MayMove(Lookup(c, ed.wire[i].name), ed.wire[i], ed.publisher)
      {
        assert WireOk(host, ed.wire[i]);
        MayMoveIff(Lookup(c, ed.wire[i].name), ed.wire[i], ed.publisher, ed.now);
      }
      if EditAccepted(c, inc, ed.publisher, ed.now) {
        var d := seq(|inc|, i requires 0 <= i < |inc| =>
          Settled(Lookup(c, inc[i].name), inc[i], ed.publisher, ed.now));
        assert Step(host, c, ed, d);
      }
    }
  }

  lemma FreshIffDistinct(ws: seq<Wire>)
    ensures (forall i :: 0 <= i < |ws| ==> FreshName(ws, i)) <==>
      forall i, j :: 0 <= i < j < |ws| ==> ws[i].name != ws[j].name
  {
    if forall i :: 0 <= i < |ws| ==> FreshName(ws, i) {
      forall i, j | 0 <= i < j < |ws|
        ensures ws[i].name != ws[j].name
      {
        assert FreshName(ws, j);
      }
    }
  }

  /** The edit leaves packages and base image as they were, or the entry is new. */
  predicate ContentKept(was: Option<Environment>, w: Wire) {
    was.None? || (was.value.baseImage == w.baseImage && was.value.packages == w.packages)
  }

  /**
    What an accepted edit stores of each entry it was sent: every field as sent, the status its text
    names, and the scan verdict its text names where the content is unchanged, and none where it changed.
  */
  lemma StoredAsSent(host: Hosts, c: Catalog, ed: Edit, d: Catalog, i: nat)
    requires Step(host, c, ed, d) && i < |ed.wire|
    ensures |d| == |ed.wire|
    ensures var w, e := ed.wire[i], d[i];
      && e.name == w.name && e.baseImage == w.baseImage && e.packages == w.packages
      && e.envVars == w.envVars && e.hatch == w.hatch && e.projects == w.projects
      && (e.status == Draft <==> w.status.None? || w.status == Some("draft"))
      && (e.status == Published <==> w.status == Some("published"))
      && (e.status == Deprecated <==> w.status == Some("deprecated"))
    ensures var w, e, kept := ed.wire[i], d[i], ContentKept(Lookup(c, ed.wire[i].name), ed.wire[i]);
      && (e.scan == Some(Clean) <==> kept && w.scan == Some("clean"))
      && (e.scan == Some(Failed) <==> kept && w.scan == Some("failed"))
      && (e.scan == Some(Pending) <==> kept && w.scan == Some("pending"))
  {
    assert WireOk(host, ed.wire[i]);
    hide Sound, Label, WireAccepted, Lookup;
  }

  /** After any accepted edit: published entries carry both publish fields, drafts neither, contents are sound. */
  lemma EditEstablishes(host: Hosts, c: Catalog, ed: Edit, d: Catalog, i: nat)
    requires Step(host, c, ed, d) && i < |d|
    ensures d[i].status.Published? ==> Attributed(d[i])
    ensures d[i].status.Draft? ==> d[i].publishedBy.None? && d[i].publishedAt.None?
    ensures EntrySound(host, d[i]) && Label(d[i].name)
    ensures Lookup(d, d[i].name) == Some(d[i])
  {
    StepNames(host, c, ed, d);
    DistinctLookup(d, i);
    var inc := Incoming(host, ed);
    assert Accepts(Lookup(c, inc[i].name), inc[i], ed.publisher, ed.now);
    assert WireOk(host, ed.wire[i]);
  }

  /**
    Who an accepted edit records as publisher. A publish by a known caller records that caller whatever
    the wire says; an edit of a published entry that leaves the fields out keeps the stored ones; a
    deprecation keeps only what the edit itself carries.
  */
  lemma PublishRecord(host: Hosts, c: Catalog, ed: Edit, d: Catalog, n: string) returns (e: Environment)
    requires Step(host, c, ed, d) && Lookup(d, n).Some?
    ensures e in Incoming(host, ed) && e.name == n
    ensures var now, was := Lookup(d, n).value, Lookup(c, n);
      && (now.status.Published? && StatusOf(was) != Some(Published) ==>
            && now.publishedBy == (if ed.publisher.Some? then ed.publisher else e.publishedBy)
            && now.publishedAt == (if e.publishedAt.Some? then e.publishedAt else Some(ed.now)))
      && (now.status.Published? && StatusOf(was) == Some(Published) ==>
            && now.publishedBy == (if e.publishedBy.Some? then e.publishedBy else was.value.publishedBy)
            && now.publishedAt == (if e.publishedAt.Some? then e.publishedAt else was.value.publishedAt))
      && (now.status.Deprecated? ==> now.publishedBy == e.publishedBy && now.publishedAt == e.publishedAt)
  {
    e := StepMoves(host, c, ed, d, n);
  }

  /** A deprecation that leaves the fields out loses the publisher of record. */
  lemma DeprecationCanDropRecord()
    ensures exists prev: Environment, e: Environment ::
      && prev.status.Published? && Attributed(prev) && e.status.Deprecated? && e.name == prev.name
      && Accepts(Some(prev), e, Some("admin"), 1)
      && Settled(Some(prev), e, Some("admin"), 1).publishedBy.None?
  {
    var prev := Environment("e", Published, Some("ann"), Some(0), "", [], map[], Document(0, Blank), [], None);
    var e := prev.(status := Deprecated, publishedBy := None, publishedAt := None);
    assert Accepts(Some(prev), e, Some("admin"), 1);
    assert Settled(Some(prev), e, Some("admin"), 1).publishedBy.None?;
  }

  /**
    A scan verdict on an entry that existed before the edit means the edit supplied it and
    left the packages field and the base image as they were.
  */
  lemma VerdictAttestsContent(host: Hosts, c: Catalog, ed: Edit, d: Catalog, n: string)
    requires Step(host, c, ed, d) && Lookup(d, n).Some? && Lookup(c, n).Some?
    ensures Lookup(d, n).value.scan.Some? ==>
      && SameContent(Lookup(c, n).value, Lookup(d, n).value)
      && exists e :: e in Incoming(host, ed) && e.name == n && e.scan == Lookup(d, n).value.scan
  {
    var e := StepMoves(host, c, ed, d, n);
  }

  /** The catalog after a publish of one new entry by an administrator. */
  function PublishedAlone(w: Wire): Catalog
    requires ParseStatus(w.status).Some? && ParseScan(w.scan).Some?
  {
    [Settled(None, Convert(w), Some("admin"), 1)]
  }

  lemma PublishesOne(host: Hosts, w: Wire)
    requires WireOk(host, w) && w.status == Some("published")
    ensures Step(host, [], Edit([w], Some("admin"), 1), PublishedAlone(w))
  {
    hide Sound, Label;
    var ed := Edit([w], Some("admin"), 1);
    assert WireAccepted(host, ed.wire);
    var inc := Incoming(host, ed);
    assert inc[0] == Convert(w) && Lookup([], w.name) == None;
    assert Accepts(None, inc[0], Some("admin"), 1);
  }

  /** An edit of that entry alone, which keeps it published. */
  lemma Republishes(host: Hosts, w: Wire, next: Wire)
    requires WireOk(host, w) && WireOk(host, next) && w.name == next.name
    requires w.status == next.status == Some("published")
    ensures Step(host, PublishedAlone(w), Edit([next], Some("admin"), 2),
                 [Settled(Some(PublishedAlone(w)[0]), Convert(next), Some("admin"), 2)])
  {
    hide Sound, Label;
    var c, ed := PublishedAlone(w), Edit([next], Some("admin"), 2);
    assert WireAccepted(host, ed.wire);
    var inc := Incoming(host, ed);
    assert inc[0] == Convert(next) && Lookup(c, w.name) == Some(c[0]);
    assert Accepts(Some(c[0]), inc[0], Some("admin"), 2);
  }

  // ------------------------------------------------------- event conservation

  function Names(c: Catalog): set<string> {
    set i | 0 <= i < |c| :: c[i].name
  }

  function PublishedNames(c: Catalog): set<string> {
    set n | n in Names(c) && StatusAt(c, n) == Some(Published)
  }

  function Count(events: seq<Event>, action: Action): nat {
    if events == [] then 0
    else Count(events[..|events| - 1], action) + (if events[|events| - 1].action == action then 1 else 0)
  }

  predicate Announces(stored: Catalog, e: Environment, action: Action) {
    EventOf(Lookup(stored, e.name), e) == [Event(action, e.name)]
  }

  lemma CountEvent(events: seq<Event>, stored: Catalog, e: Environment, action: Action)
    ensures Count(events + EventOf(Lookup(stored, e.name), e), action)
      == Count(events, action) + (if Announces(stored, e, action) then 1 else 0)
  {
    var ev := EventOf(Lookup(stored, e.name), e);
    if ev == [] {
      assert events + ev == events;
    } else {
      assert (events + ev)[..|events|] == events;
    }
  }

  /** The names an edit announces under an action. */
  function Announced(stored: Catalog, inc: Catalog, action: Action): set<string> {
    if inc == [] then {}
    else
      var e := inc[|inc| - 1];
      Announced(stored, inc[..|inc| - 1], action) + (if Announces(stored, e, action) then {e.name} else {})
  }

  lemma {:induction false} AnnouncedMember(stored: Catalog, inc: Catalog, action: Action, n: string)
    ensures n in Announced(stored, inc, action) <==>
      exists i :: 0 <= i < |inc| && inc[i].name == n && Announces(stored, inc[i], action)
  {
    hide Announces;
    if inc != [] {
      var init := inc[..|inc| - 1];
      AnnouncedMember(stored, init, action, n);
      assert forall i :: 0 <= i < |init| ==> init[i] == inc[i];
    }
  }

  lemma {:induction false} AnnouncedCount(stored: Catalog, inc: Catalog, action: Action)
    requires forall j, k :: 0 <= j < k < |inc| ==> inc[j].name != inc[k].name
    ensures Count(Events(stored, inc), action) == |Announced(stored, inc, action)|
  {
    hide EventOf, Lookup, Count, Announces;
    if inc == [] {
      assert Events(stored, inc) == [];
      NoEvents(action);
    } else {
      var e := inc[|inc| - 1];
      var init := inc[..|inc| - 1];
      AnnouncedCount(stored, init, action);
      CountEvent(Events(stored, init), stored, e, action);
      AnnouncedMember(stored, init, action, e.name);
      assert e.name !in Announced(stored, init, action);
    }
  }

  lemma NoEvents(action: Action)
    ensures Count([], action) == 0
  {
  }

  /** Published entries an edit removed outright. */
  function Dropped(c: Catalog, d: Catalog): set<string> {
    PublishedNames(c) - Names(d)
  }

  lemma NotNamed(host: Hosts, c: Catalog, ed: Edit, d: Catalog, n: string, action: Action)
    requires Step(host, c, ed, d) && n !in Names(d)
    ensures n !in Announced(c, Incoming(host, ed), action)
  {
    hide Lookup, Announces;
    var inc := Incoming(host, ed);
    AnnouncedMember(c, inc, action, n);
    forall k | 0 <= k < |inc|
      ensures inc[k].name != n
    {
      assert d[k].name == inc[k].name && d[k].name in Names(d);
    }
  }

  lemma AnnouncedAt(host: Hosts, c: Catalog, ed: Edit, d: Catalog, i: nat, action: Action)
    requires Step(host, c, ed, d) && i < |d|
    ensures d[i].name in Announced(c, Incoming(host, ed), action) <==> Announces(c, d[i], action)
  {
    hide Lookup;
    var inc := Incoming(host, ed);
    AnnouncedMember(c, inc, action, d[i].name);
    assert inc[i].name == d[i].name && inc[i].status == d[i].status;
    assert forall k :: 0 <= k < |inc| && inc[k].name == d[i].name ==> k == i;
  }

  /** An edit announces exactly the entries it published and exactly those it deprecated. */
  lemma AnnouncedExactly(host: Hosts, c: Catalog, ed: Edit, d: Catalog, n: string)
    requires Step(host, c, ed, d)
    ensures n in Announced(c, Incoming(host, ed), Publish) <==> n in PublishedNames(d) - PublishedNames(c)
    ensures n in Announced(c, Incoming(host, ed), Deprecate) <==>
      n in PublishedNames(c) - PublishedNames(d) - Dropped(c, d)
  {
    hide Announced, Lookup, Step, Incoming;
    PublishedMember(c, n);
    PublishedMember(d, n);
    if n in Names(d) {
      var i :| 0 <= i < |d| && d[i].name == n;
      AnnouncedAt(host, c, ed, d, i, Publish);
      AnnouncedAt(host, c, ed, d, i, Deprecate);
      EditEstablishes(host, c, ed, d, i);
      StepIsLegal(host, c, ed, d, n);
    } else {
      NotNamed(host, c, ed, d, n, Publish);
      NotNamed(host, c, ed, d, n, Deprecate);
    }
  }

  lemma PublishedMember(c: Catalog, n: string)
    ensures n in PublishedNames(c) <==> StatusAt(c, n) == Some(Published)
  {
    assert Lookup(c, n).Some? ==> n in Names(c);
  }

  lemma StepConserves(host: Hosts, c: Catalog, ed: Edit, d: Catalog)
    requires Step(host, c, ed, d)
    ensures |PublishedNames(d)| + Count(Events(c, Incoming(host, ed)), Deprecate) + |Dropped(c, d)|
      == |PublishedNames(c)| + Count(Events(c, Incoming(host, ed)), Publish)
  {
    var inc := Incoming(host, ed);
    AnnouncedCount(c, inc, Publish);
    AnnouncedCount(c, inc, Deprecate);
    hide EditAccepted, SettledAll, WireAccepted, Incoming, PublishedNames, Events, Count, Announced;
    forall n: string
      ensures n in Announced(c, inc, Publish) <==> n in PublishedNames(d) - PublishedNames(c)
      ensures n in Announced(c, inc, Deprecate) <==> n in PublishedNames(c) - PublishedNames(d) - Dropped(c, d)
    {
      AnnouncedExactly(host, c, ed, d, n);
    }
    var p, q := PublishedNames(c), PublishedNames(d);
    assert Announced(c, inc, Publish) == q - p;
    assert Announced(c, inc, Deprecate) == (p - q) - Dropped(c, d);
    assert Dropped(c, d) <= p - q by {
      forall n | n in Dropped(c, d)
        ensures n !in q
      {
        DroppedIsGone(c, d, n);
      }
    }
    SplitCard(p - q, Dropped(c, d));
    SplitCard(p, p - q);
    SplitCard(q, q - p);
    assert p - (p - q) == q - (q - p);
  }

  lemma DroppedIsGone(c: Catalog, d: Catalog, n: string)
    requires n in Dropped(c, d)
    ensures n !in PublishedNames(d)
  {
  }

  lemma SplitCard(a: set<string>, b: set<string>)
    requires b <= a
    ensures |a| == |a - b| + |b|
  {
    assert a == (a - b) + b;
  }

  function Kept(c: Catalog, d: Catalog): set<string> {
    PublishedNames(c) * Names(d)
  }

  lemma KeptOrDropped(c: Catalog, d: Catalog)
    ensures |PublishedNames(c)| == |Kept(c, d)| + |Dropped(c, d)|
  {
    hide PublishedNames, Names;
    SplitCard(PublishedNames(c), Dropped(c, d));
    assert PublishedNames(c) - Dropped(c, d) == Kept(c, d);
  }

  lemma PublishedAreNamed(c: Catalog)
    ensures Dropped(c, c) == {}
  {
  }

  ghost function EventCount(host: Hosts, base: Catalog, ed: Option<Edit>, action: Action): nat
    requires ed.Some? ==> WireAccepted(host, ed.value.wire)
  {
    if ed.None? then 0 else Count(Events(base, Incoming(host, ed.value)), action)
  }

  /** The books of one landing on c of an edit that read `base`. */
  lemma LandingConserves(host: Hosts, base: Catalog, ed: Option<Edit>, d: Catalog, c: Catalog)
    requires Lands(host, base, ed, d)
    ensures |PublishedNames(d)| + EventCount(host, base, ed, Deprecate) + |Dropped(c, d)| + |Kept(c, d)|
      == |PublishedNames(c)| + EventCount(host, base, ed, Publish) + |Kept(base, d)|
  {
    KeptOrDropped(c, d);
    KeptOrDropped(base, d);
    if ed.Some? {
      StepConserves(host, base, ed.value, d);
    } else {
      PublishedAreNamed(d);
    }
  }

  ghost function TotalEvents(host: Hosts, cs: seq<Catalog>, seen: seq<Catalog>, eds: seq<Option<Edit>>,
                             action: Action): nat
    requires IsRace(host, cs, seen, eds)
    decreases |eds|
  {
    if eds == [] then 0
    else
      var m := |eds| - 1;
      assert Lands(host, seen[m], eds[m], cs[m + 1]);
      TotalEvents(host, cs[..m + 1], seen[..m], eds[..m], action) + EventCount(host, seen[m], eds[m], action)
  }

  ghost function TotalDropped(cs: seq<Catalog>): nat {
    if |cs| < 2 then 0 else TotalDropped(cs[..|cs| - 1]) + |Dropped(cs[|cs| - 2], cs[|cs| - 1])|
  }

  /** Summed over the landings: the names an edit carries that were published in `from`. */
  ghost function TotalKept(from: seq<Catalog>, cs: seq<Catalog>): nat
    requires |from| + 1 == |cs|
    decreases |from|
  {
    if from == [] then 0
    else
      var m := |from| - 1;
      TotalKept(from[..m], cs[..m + 1]) + |Kept(from[m], cs[m + 1])|
  }

  lemma {:induction false} RaceConserves(host: Hosts, cs: seq<Catalog>, seen: seq<Catalog>, eds: seq<Option<Edit>>)
    requires IsRace(host, cs, seen, eds)
    ensures |PublishedNames(cs[|eds|])| + TotalEvents(host, cs, seen, eds, Deprecate) + TotalDropped(cs)
            + TotalKept(cs[..|eds|], cs)
      == |PublishedNames(cs[0])| + TotalEvents(host, cs, seen, eds, Publish) + TotalKept(seen, cs)
    decreases |eds|
  {
    hide PublishedNames, Dropped, Kept, EventCount, Lands;
    if eds != [] {
      var m := |eds| - 1;
      assert Lands(host, seen[m], eds[m], cs[m + 1]);
      RaceConserves(host, cs[..m + 1], seen[..m], eds[..m]);
      LandingConserves(host, seen[m], eds[m], cs[m + 1], cs[m]);
      assert cs[..|cs| - 1] == cs[..m + 1] && cs[..m + 1][..m] == cs[..|eds|][..m];
    }
  }

  /**
    The entries now published are those at the start, plus the publish events, less the deprecate
    events, less those removed while published.
  */
  ghost predicate Balanced(host: Hosts, cs: seq<Catalog>, seen: seq<Catalog>, eds: seq<Option<Edit>>)
    requires IsRace(host, cs, seen, eds)
  {
    |PublishedNames(cs[|eds|])| + TotalEvents(host, cs, seen, eds, Deprecate) + TotalDropped(cs)
      == |PublishedNames(cs[0])| + TotalEvents(host, cs, seen, eds, Publish)
  }

  /**
    The audit trail of any race balances exactly when, over all landings, as many of the names an edit
    carried were published when it read as were published when it landed.
  */
  lemma EventsBalanceIff(host: Hosts, cs: seq<Catalog>, seen: seq<Catalog>, eds: seq<Option<Edit>>)
    requires IsRace(host, cs, seen, eds)
    ensures Balanced(host, cs, seen, eds) <==> TotalKept(seen, cs) == TotalKept(cs[..|eds|], cs)
  {
    RaceConserves(host, cs, seen, eds);
  }

  /** So it balances over every run. */
  lemma EventsBalance(host: Hosts, cs: seq<Catalog>, eds: seq<Option<Edit>>)
    requires IsRun(host, cs, eds)
    ensures Balanced(host, cs, cs[..|eds|], eds)
  {
    EventsBalanceIff(host, cs, cs[..|eds|], eds);
  }
}
