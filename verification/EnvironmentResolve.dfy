/**
  From a catalog entry to the document a reference to it resolves to
  (internal/api/environments.go): compilation, and resolution under the project's rules.

  `size` stands for YAML rendering: the byte length a decoded document renders to.
  Decoding a rendered document gives that document back.
*/
module EnvironmentResolve {
  import opened Prelude
  import opened PackageNames
  import opened RuntimeEnv
  import opened EnvironmentCatalog

  type Sizes = Fields -> nat

  // -------------------------------------------------------------- compilation

  function Strings(ss: seq<string>): (r: seq<Yaml>)
    ensures |r| == |ss| && forall i :: 0 <= i < |r| ==> r[i] == Str(ss[i])
  {
    seq(|ss|, i requires 0 <= i < |ss| => Str(ss[i]))
  }

  function StringMap(m: map<string, string>): Fields {
    map k | k in m :: Str(m[k])
  }

  function HatchFields(hatch: Content): Fields {
    if hatch.Mapping? then hatch.fields else map[]
  }

  function Merged(hatch: Fields, packages: seq<string>, envVars: map<string, string>): Fields {
    var doc := if packages == [] then hatch else hatch["pip" := List(Strings(packages))];
    if envVars == map[] then doc else doc["env_vars" := Map(Vars(hatch) + StringMap(envVars))]
  }

  /** No fields render to no text. */
  function Rendered(size: Sizes, doc: Fields): Document {
    if doc == map[] then Document(0, Blank) else Document(size(doc), Mapping(doc))
  }

  /** Crash is a write into the nil map a null document leaves behind. */
  datatype Compiled = Doc(d: Document) | Undecodable | Crash

  predicate Crashes(e: Environment) {
    e.hatch.content.NullDoc? && (e.packages != [] || e.envVars != map[])
  }

  function Compile(size: Sizes, e: Environment): Compiled {
    if e.hatch.content.Malformed? then Undecodable
    else if Crashes(e) then Crash
    else Doc(Rendered(size, Merged(HatchFields(e.hatch.content), e.packages, e.envVars)))
  }

  method SetVars(start: Fields, envVars: map<string, string>) returns (vars: Fields)
    ensures vars == start + StringMap(envVars)
  {
    vars := start;
    var todo := envVars.Keys;
    while todo != {}
      invariant todo <= envVars.Keys
      invariant vars == start + map k | k in envVars.Keys - todo :: Str(envVars[k])
      decreases todo
    {
      var k :| k in todo;
      vars := vars[k := Str(envVars[k])];
      todo := todo - {k};
    }
  }

  method CompileEnvironment(size: Sizes, e: Environment) returns (r: Compiled)
    ensures r == Compile(size, e)
  {
    var doc: Option<Fields> := Some(map[]);
    match e.hatch.content {
      case Blank =>
      case Malformed => return Undecodable;
      case NullDoc => doc := None;
      case Mapping(h) => doc := Some(h);
    }
    if |e.packages| > 0 {
      var pip: seq<Yaml> := [];
      for i := 0 to |e.packages|
        invariant |pip| == i && forall j :: 0 <= j < i ==> pip[j] == Str(e.packages[j])
      {
        pip := pip + [Str(e.packages[i])];
      }
      if doc.None? {
        return Crash;
      }
      assert pip == Strings(e.packages);
      doc := Some(doc.value["pip" := List(pip)]);
    }
    if e.envVars != map[] {
      var vars := SetVars(if doc.Some? then Vars(doc.value) else map[], e.envVars);
      if doc.None? {
        return Crash;
      }
      doc := Some(doc.value["env_vars" := Map(vars)]);
    }
    if doc.None? || doc.value == map[] {
      return Doc(Document(0, Blank));
    }
    return Doc(Document(size(doc.value), Mapping(doc.value)));
  }

  /**
    `out` is the conflict-free union of a hatch and the structured fields: the hatch's own fields and
    variables are all there unchanged, the structured ones are all there, and nothing else is.
  */
  ghost predicate IsUnion(h: Fields, packages: seq<string>, envVars: map<string, string>, out: Fields) {
    && (forall f :: f in h && f != "env_vars" ==> f in out && out[f] == h[f])
    && (forall k :: k in Vars(h) ==> k in Vars(out) && Vars(out)[k] == Vars(h)[k])
    && (forall k :: k in envVars ==> k in Vars(out) && Vars(out)[k] == Str(envVars[k]))
    && Vars(out).Keys == Vars(h).Keys + envVars.Keys
    && (packages != [] ==> "pip" in out && out["pip"] == List(Strings(packages)))
    && out.Keys == h.Keys + (if packages != [] then {"pip"} else {}) + (if envVars != map[] then {"env_vars"} else {})
  }

  lemma MergedIsUnion(h: Fields, packages: seq<string>, envVars: map<string, string>)
    requires packages != [] ==> "pip" !in h
    requires Vars(h).Keys !! envVars.Keys
    ensures IsUnion(h, packages, envVars, Merged(h, packages, envVars))
  {
    if envVars.Keys == {} {
      assert envVars == map[];
    }
  }

  /** A sound entry compiles unless it crashes, and then to the conflict-free union. */
  lemma CompilesToUnion(host: Hosts, size: Sizes, e: Environment)
    requires EntrySound(host, e) && e.hatch.IsText()
    ensures Compile(size, e).Doc? <==> !Crashes(e)
    ensures Compile(size, e).Doc? ==>
      IsUnion(HatchFields(e.hatch.content), e.packages, e.envVars, HatchFields(Compile(size, e).d.content))
  {
    hide Valid, IsPinned, IsUnion, Merged;
    if !Crashes(e) {
      assert e.hatch.content.Mapping? ==> HatchDisjoint(e.packages, e.envVars, e.hatch.content);
      MergedIsUnion(HatchFields(e.hatch.content), e.packages, e.envVars);
    }
  }

  lemma PackagesAccepted(packages: seq<string>)
    requires forall i :: 0 <= i < |packages| ==> IsPinned(packages[i])
    ensures EntriesOk(DEFAULT, Strings(packages))
  {
    hide IsPinned, PipPackageName;
    forall i | 0 <= i < |packages|
      ensures EntryOk(DEFAULT, Strings(packages)[i])
    {
      PinnedHasName(packages[i]);
    }
  }

  /** The fields of a sound entry's document. */
  function CompiledFields(e: Environment): Fields {
    Merged(HatchFields(e.hatch.content), e.packages, e.envVars)
  }

  /** A sound entry's document passes the default's field checks. */
  lemma CompiledFieldsOk(host: Hosts, e: Environment)
    requires EntrySound(host, e) && e.hatch.IsText()
    ensures FieldsOk(DEFAULT, host, CompiledFields(e))
  {
    hide EntriesOk, UriOk, PyModulesOk, ConfigOk, IsPinned;
    var h := HatchFields(e.hatch.content);
    assert FieldsOk(DEFAULT, host, h);
    PackagesAccepted(e.packages);
    var doc := CompiledFields(e);
    forall f | f in doc
      ensures FieldOk(DEFAULT, host, f, doc[f])
    {
      if f == "env_vars" && e.envVars != map[] {
        assert "env_vars" in h ==> EnvVarsOk(h["env_vars"]);
      } else if f == "pip" && e.packages != [] {
        assert doc[f] == List(Strings(e.packages));
      } else {
        assert doc[f] == h[f];
      }
    }
  }

  // --------------------------------------------------------------- resolution

  /** What the effective policy says for the caller's project. */
  datatype Rules = Rules(policy: Policy, scanGate: bool, ungoverned: bool)

  datatype Resolved = Resolved(name: string, baseImage: string, doc: Document)

  datatype Reason =
    | NoSuchEnvironment
    | NotAvailable
    | NotPublished
    | Unscanned
    | ScanFailed
    | ImageConflict
    | DoesNotCompile
    | PolicyRefuses
    | Panic

  function First(c: Catalog, name: string): Option<Environment> {
    if c == [] then None
    else if c[0].name == name then Some(c[0])
    else First(c[1..], name)
  }

  predicate AvailableTo(e: Environment, project: string) {
    e.projects == [] || project in e.projects
  }

  predicate Referable(e: Environment, project: string) {
    AvailableTo(e, project) && e.status.Published?
  }

  predicate ImageFits(e: Environment, image: string) {
    e.baseImage == "" || image == "" || image == e.baseImage
  }

  /** Everything resolution asks of an entry short of its document. */
  predicate Selectable(e: Environment, rules: Rules, project: string, image: string) {
    && Referable(e, project)
    && (rules.scanGate ==> e.scan == Some(Clean))
    && ImageFits(e, image)
  }

  predicate Resolvable(host: Hosts, size: Sizes, e: Environment, rules: Rules, project: string, image: string) {
    && Selectable(e, rules, project, image)
    && Compile(size, e).Doc?
    && (rules.ungoverned || Valid(rules.policy, host, Compile(size, e).d))
  }

  /** EnforceSetupTimeout on text: unchanged documents keep their bytes, changed ones are rendered again. */
  function Bounded(p: Policy, size: Sizes, d: Document): Option<Document> {
    match Enforce(p, d.content)
    case None => None
    case Some(c) => Some(if c == d.content || !c.Mapping? then d else Document(size(c.fields), c))
  }

  function PinnedDoc(size: Sizes, e: Environment, rules: Rules): Document
    requires Compile(size, e).Doc?
  {
    var d := Compile(size, e).d;
    if rules.ungoverned then d else Bounded(rules.policy, size, d).value
  }

  function ResolveEntry(host: Hosts, size: Sizes, e: Environment, rules: Rules, project: string,
                        image: string): Result<(Resolved, string), Reason> {
    if !AvailableTo(e, project) then Err(NotAvailable)
    else if !e.status.Published? then Err(NotPublished)
    else if rules.scanGate && e.scan in {None, Some(Pending)} then Err(Unscanned)
    else if rules.scanGate && e.scan == Some(Failed) then Err(ScanFailed)
    else if !ImageFits(e, image) then Err(ImageConflict)
    else if Compile(size, e).Crash? then Err(Panic)
    else if Compile(size, e).Undecodable? then Err(DoesNotCompile)
    else if !rules.ungoverned && !Valid(rules.policy, host, Compile(size, e).d) then Err(PolicyRefuses)
    else Ok((Resolved(e.name, e.baseImage, PinnedDoc(size, e, rules)), ImageOf(e, image)))
  }

  /** The image the workload runs: the environment's where it fixes one. */
  function ImageOf(e: Environment, image: string): string {
    if e.baseImage == "" then image else e.baseImage
  }

  function Resolution(host: Hosts, size: Sizes, c: Catalog, rules: Rules, project: string, name: string,
                      image: string): Result<(Resolved, string), Reason> {
    if First(c, name).None? then Err(NoSuchEnvironment)
    else ResolveEntry(host, size, First(c, name).value, rules, project, image)
  }

  /** Resolution succeeds exactly for resolvable entries. */
  lemma ResolutionMeans(host: Hosts, size: Sizes, c: Catalog, rules: Rules, project: string, name: string,
                        image: string)
    ensures Resolution(host, size, c, rules, project, name, image).Ok? <==>
      First(c, name).Some? && Resolvable(host, size, First(c, name).value, rules, project, image)
  {
    hide Valid, Compile, Bounded;
    if First(c, name).Some? {
      var e := First(c, name).value;
      assert e.scan.Some? ==> e.scan.value.Clean? || e.scan.value.Failed? || e.scan.value.Pending?;
    }
  }

  /** The first entry of that name. */
  lemma {:induction false} FirstMeans(c: Catalog, name: string)
    ensures First(c, name).None? <==> forall i :: 0 <= i < |c| ==> c[i].name != name
    ensures First(c, name).Some? ==>
      exists i :: 0 <= i < |c| && c[i] == First(c, name).value && c[i].name == name
        && forall j :: 0 <= j < i ==> c[j].name != name
  {
    if c != [] {
      FirstMeans(c[1..], name);
      assert forall i :: 0 < i < |c| ==> c[i] == c[1..][i - 1];
      if c[0].name != name && First(c, name).Some? {
        var i :| 0 <= i < |c[1..]| && c[1..][i] == First(c, name).value && c[1..][i].name == name
          && forall j :: 0 <= j < i ==> c[1..][j].name != name;
        assert c[i + 1] == First(c, name).value;
        assert forall j :: 0 < j < i + 1 ==> c[j] == c[1..][j - 1];
      }
    }
  }

  /** The entry may be named from the project, and its verdict passes the gate. */
  predicate MayName(e: Environment, rules: Rules, project: string) {
    && (e.projects == [] || project in e.projects) && e.status == Published
    && (rules.scanGate ==> e.scan == Some(Clean))
  }

  predicate ImagesAgree(e: Environment, image: string) {
    e.baseImage == "" || image == "" || image == e.baseImage
  }

  /**
    Each answer and its cause, in the order the causes are looked at; and what a success carries: the
    name asked for, the entry's image, and as the workload's image the entry's where it fixes one.
  */
  lemma ResolutionAnswers(host: Hosts, size: Sizes, c: Catalog, rules: Rules, project: string, name: string,
                          image: string, e: Environment)
    requires First(c, name) == Some(e)
    ensures var r := Resolution(host, size, c, rules, project, name, image);
      && (r == Err(NotAvailable) <==> e.projects != [] && project !in e.projects)
      && (r == Err(NotPublished) <==> (e.projects == [] || project in e.projects) && e.status != Published)
      && (r == Err(Unscanned) <==>
            && MayName(e.(scan := Some(Clean)), rules, project)
            && rules.scanGate && (e.scan == None || e.scan == Some(Pending)))
      && (r == Err(ScanFailed) <==>
            && MayName(e.(scan := Some(Clean)), rules, project)
            && rules.scanGate && e.scan == Some(Failed))
      && (r == Err(ImageConflict) <==> MayName(e, rules, project) && !ImagesAgree(e, image))
      && (r.Ok? <==>
            && MayName(e, rules, project) && ImagesAgree(e, image) && Compile(size, e).Doc?
            && (rules.ungoverned || Valid(rules.policy, host, Compile(size, e).d)))
      && (r.Ok? ==>
            && r.value.0.name == e.name && r.value.0.baseImage == e.baseImage
            && r.value.1 == (if e.baseImage == "" then image else e.baseImage)
            && (rules.ungoverned ==> r.value.0.doc == Compile(size, e).d))
  {
    hide Valid, Compile, Bounded;
    assert e.scan.Some? ==> e.scan.value.Clean? || e.scan.value.Failed? || e.scan.value.Pending?;
  }

  method ResolveEnvironment(host: Hosts, size: Sizes, c: Catalog, rules: Rules, project: string, name: string,
                            image: string)
    returns (r: Result<(Resolved, string), Reason>)
    ensures r == Resolution(host, size, c, rules, project, name, image)
  {
    hide Valid, Compile, Bounded;
    var found := None;
    var i := 0;
    while i < |c| && found.None?
      invariant 0 <= i <= |c|
      invariant First(c, name) == if found.Some? then found else First(c[i..], name)
      invariant found.Some? ==> found.value.name == name
      decreases |c| - i, found.None?
    {
      if c[i].name == name {
        found := Some(c[i]);
      } else {
        assert c[i..][1..] == c[i + 1..];
        i := i + 1;
      }
    }
    if found.None? {
      return Err(NoSuchEnvironment);
    }
    var e := found.value;
    if !AvailableTo(e, project) {
      return Err(NotAvailable);
    }
    if e.status != Published {
      return Err(NotPublished);
    }
    if rules.scanGate {
      if e.scan == None || e.scan == Some(Pending) {
        return Err(Unscanned);
      } else if e.scan == Some(Failed) {
        return Err(ScanFailed);
      }
    }
    var image' := image;
    if e.baseImage != "" {
      if image == "" {
        image' := e.baseImage;
      } else if image != e.baseImage {
        return Err(ImageConflict);
      }
    }
    var compiled := CompileEnvironment(size, e);
    if compiled.Crash? {
      return Err(Panic);
    }
    if compiled.Undecodable? {
      return Err(DoesNotCompile);
    }
    if rules.ungoverned {
      return Ok((Resolved(name, e.baseImage, compiled.d), image'));
    }
    var refused := Validate(rules.policy, host, compiled.d);
    if refused.Some? {
      return Err(PolicyRefuses);
    }
    var bounded := Bounded(rules.policy, size, compiled.d);
    CompiledIsBounded(rules.policy, size, e);
    return Ok((Resolved(name, e.baseImage, bounded.value), image'));
  }

  lemma CompiledIsBounded(p: Policy, size: Sizes, e: Environment)
    requires Compile(size, e).Doc?
    ensures Bounded(p, size, Compile(size, e).d).Some?
  {
  }

  lemma {:induction false} FirstIs(c: Catalog, i: nat)
    requires i < |c| && forall j, k :: 0 <= j < k < |c| ==> c[j].name != c[k].name
    ensures First(c, c[i].name) == Some(c[i])
  {
    if i > 0 {
      FirstIs(c[1..], i - 1);
    }
  }

  lemma AcceptedEntriesFound(host: Hosts, c: Catalog, ed: Edit, d: Catalog, i: nat)
    requires Step(host, c, ed, d) && i < |d|
    ensures First(d, d[i].name) == Some(d[i])
  {
    StepNames(host, c, ed, d);
    FirstIs(d, i);
  }

  /** The rendered document fits the byte cap, names no denied package and sets no longer timeout than allowed. */
  predicate Admissible(size: Sizes, e: Environment, p: Policy) {
    var doc := CompiledFields(e);
    && (doc == map[] || size(doc) <= p.BytesCap())
    && NoneDenied(p, Requirements(doc))
    && TimeoutFits(p, doc)
  }

  /** For an entry, whatever the policy. */
  lemma SoundResolves(host: Hosts, size: Sizes, e: Environment, rules: Rules, project: string, image: string)
    requires EntrySound(host, e) && e.hatch.IsText()
    ensures Resolvable(host, size, e, rules, project, image) <==>
      && Selectable(e, rules, project, image)
      && !Crashes(e)
      && (rules.ungoverned || Admissible(size, e, rules.policy))
  {
    CompilesToUnion(host, size, e);
    CompiledFieldsOk(host, e);
    FieldsOkUnder(rules.policy, host, CompiledFields(e));
    if CompiledFields(e) == map[] {
      NoTimeout(rules.policy, CompiledFields(e));
      NothingDenied(rules.policy);
    }
    hide EntrySound, Merged, FieldsOk, Selectable, NoneDenied, TimeoutFits, Requirements, IsUnion;
  }

  /**
    Every entry of every catalog an accepted edit left behind, under every rules: naming it resolves exactly
    when it is selectable, it does not pair a null hatch with structured fields, and, where documents are
    governed, it fits the byte cap, names no denied package and sets no longer a timeout than the policy's cap.
  */
  lemma AcceptedEntriesResolve(host: Hosts, size: Sizes, c: Catalog, ed: Edit, d: Catalog, e: Environment,
                               rules: Rules, project: string, image: string)
    requires Step(host, c, ed, d) && e in d && e.hatch.IsText()
    ensures Resolution(host, size, d, rules, project, e.name, image).Ok? <==>
      && Selectable(e, rules, project, image)
      && !Crashes(e)
      && (rules.ungoverned || Admissible(size, e, rules.policy))
  {
    var i :| 0 <= i < |d| && d[i] == e;
    assert EntrySound(host, e) by {
      EditEstablishes(host, c, ed, d, i);
    }
    assert First(d, e.name) == Some(e) by {
      AcceptedEntriesFound(host, c, ed, d, i);
    }
    SoundResolves(host, size, e, rules, project, image);
    ResolutionMeans(host, size, d, rules, project, e.name, image);
    hide Resolution, Resolvable, Selectable, Admissible;
  }

  // ---------------------------------------------------------- failing entries

  /** An entry with one variable and the given hatch, as an administrator would publish it. */
  function OneVariable(value: string, hatch: Document): Wire {
    Wire("e", Some("published"), None, None, "", [], map["A" := value], hatch, [], None)
  }

  lemma OneVariableOk(host: Hosts, value: string, hatch: Document)
    requires hatch in {Document(0, Blank), Document(4, NullDoc)}
    ensures WireOk(host, OneVariable(value, hatch))
    ensures var w := OneVariable(value, hatch);
      Step(host, [], Edit([w], Some("admin"), 1), PublishedAlone(w))
  {
    var w := OneVariable(value, hatch);
    assert Label("e") && Valid(DEFAULT, host, hatch) && "" !in w.envVars;
    assert ParseStatus(Some("published")) == Some(Published);
    assert Sound(host, w.packages, w.envVars, w.hatch);
    hide Sound, Label, Valid;
    PublishesOne(host, w);
  }

  /** A published entry of an accepted edit, whose resolution crashes in every project and under every policy. */
  lemma NullHatchCrashes(host: Hosts, size: Sizes, policy: Policy, ungoverned: bool, project: string)
    ensures exists ed: Edit, d: Catalog ::
      && Step(host, [], ed, d)
      && Resolution(host, size, d, Rules(policy, false, ungoverned), project, "e", "") == Err(Panic)
  {
    var w := OneVariable("x", Document(4, NullDoc));
    OneVariableOk(host, "x", Document(4, NullDoc));
    var d := PublishedAlone(w);
    assert w.envVars["A"] == "x" && ParseStatus(w.status) == Some(Published);
    hide Step;
    assert Resolution(host, size, d, Rules(policy, false, ungoverned), project, "e", "") == Err(Panic);
  }
}
