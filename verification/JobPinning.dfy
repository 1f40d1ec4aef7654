/**
  The runtime environment a job carries (internal/api/rayjobs.go): validation, the
  setup timeout, and pinning the resolved document on the job. Resolution and the job's own
  check read the policy separately, so it may differ between them.
*/
module JobPinning {
  import opened Prelude
  import opened RuntimeEnv
  import opened EnvironmentCatalog
  import opened EnvironmentResolve

  /** Within the field rules, and with a bounded setup timeout unless there is no runtime env at all. */
  predicate Governed(p: Policy, host: Hosts, c: Content) {
    match c
    case Malformed => false
    case Mapping(doc) =>
      FieldsOk(p, host, doc) && (doc != map[] ==> TimeoutSet(doc, p.TimeoutCap()))
    case _ => true
  }

  lemma BoundedGoverns(p: Policy, host: Hosts, size: Sizes, d: Document)
    requires Valid(p, host, d)
    ensures Bounded(p, size, d).Some?
    ensures Governed(p, host, Bounded(p, size, d).value.content)
    ensures Bounded(p, size, Bounded(p, size, d).value) == Bounded(p, size, d)
    ensures d.content.Mapping? ==>
      && Bounded(p, size, d).value.content.Mapping?
      && Rest(Bounded(p, size, d).value.content.fields) == Rest(d.content.fields)
    ensures !d.content.Mapping? || d.content.fields == map[] || SetsTimeout(d.content.fields) ==>
      Bounded(p, size, d) == Some(d)
  {
    if d.content.Mapping? {
      EnforceSound(p, host, d.content.fields);
    }
    hide FieldsOk, WithTimeout, SetsTimeout, TimeoutSet;
  }

  lemma GovernedValid(p: Policy, host: Hosts, d: Document)
    requires Governed(p, host, d.content)
    ensures Valid(p, host, d) <==> d.content.Blank? || d.bytes <= p.BytesCap()
  {
  }

  predicate Fits(p: Policy, d: Document) {
    d.content.Blank? || d.bytes <= p.BytesCap()
  }

  /** A bounded document sets its timeout, so bounding it again, under whatever policy, changes nothing. */
  lemma BoundedOnce(p: Policy, q: Policy, size: Sizes, d: Document)
    requires Bounded(p, size, d).Some?
    ensures Bounded(q, size, Bounded(p, size, d).value) == Bounded(p, size, d)
  {
    if d.content.Mapping? {
      var doc := d.content.fields;
      assert doc != map[] && !SetsTimeout(doc) ==> SetsTimeout(WithTimeout(p, doc));
    }
  }

  datatype Finished = Finished(yaml: Document, pinned: Option<Document>, image: string)

  datatype FinishError = EnvironmentAndYaml | Refused(reason: Reason) | RuntimeEnvRejected

  /** The environment path: the name resolves, and the bounded document passes the job's own check. */
  predicate EnvironmentAccepted(host: Hosts, size: Sizes, c: Catalog, rules: Rules, policy: Policy,
                                project: string, name: string, image: string) {
    && First(c, name).Some?
    && Resolvable(host, size, First(c, name).value, rules, project, image)
    && (rules.ungoverned || Valid(policy, host, PinnedDoc(size, First(c, name).value, rules)))
  }

  /** Under one policy the job's own check adds the byte cap alone, now with the timeout in the document. */
  lemma SamePolicyAccepts(host: Hosts, size: Sizes, c: Catalog, rules: Rules, project: string, name: string,
                          image: string)
    ensures EnvironmentAccepted(host, size, c, rules, rules.policy, project, name, image) <==>
      && First(c, name).Some?
      && Resolvable(host, size, First(c, name).value, rules, project, image)
      && (rules.ungoverned || Fits(rules.policy, PinnedDoc(size, First(c, name).value, rules)))
  {
    hide Valid, Governed, Bounded, Compile, Selectable;
    var found := First(c, name);
    if found.Some? && Resolvable(host, size, found.value, rules, project, image) && !rules.ungoverned {
      var e := found.value;
      BoundedGoverns(rules.policy, host, size, Compile(size, e).d);
      GovernedValid(rules.policy, host, PinnedDoc(size, e, rules));
    }
  }

  /**
    The runtime-env part of finishing a job spec; `rules` is what resolution read, `policy` what the job's own check
    read later. What is stored is governed by the later one, and it is the very document pinned on the resolution.
  */
  method FinishRuntimeEnv(host: Hosts, size: Sizes, c: Catalog, rules: Rules, policy: Policy, project: string,
                          environment: Option<string>, yaml: Document, image: string)
    returns (r: Result<Finished, FinishError>)
    ensures environment.None? ==> (r.Ok? <==> rules.ungoverned || Valid(policy, host, yaml))
    ensures environment.Some? ==>
      (r.Ok? <==>
        && yaml.content.Blank?
        && EnvironmentAccepted(host, size, c, rules, policy, project, environment.value, image))
    ensures r.Ok? && environment.Some? ==>
      && r.value.yaml == PinnedDoc(size, First(c, environment.value).value, rules)
      && r.value.pinned == Some(r.value.yaml)
      && r.value.image == ImageOf(First(c, environment.value).value, image)
    ensures r.Ok? && environment.None? ==>
      && r.value.pinned == None && r.value.image == image
      && (if rules.ungoverned then r.value.yaml == yaml else Some(r.value.yaml) == Bounded(policy, size, yaml))
    ensures r.Ok? && !rules.ungoverned ==> Governed(policy, host, r.value.yaml.content)
    ensures r.Ok? && !rules.ungoverned && environment.Some? ==> Valid(policy, host, r.value.yaml)
  {
    hide Valid, Governed, Bounded, Compile, Selectable;
    if environment.Some? && !yaml.content.Blank? {
      return Err(EnvironmentAndYaml);
    }
    var doc, pinned, image' := yaml, None, image;
    if environment.Some? {
      var resolved := ResolveEnvironment(host, size, c, rules, project, environment.value, image);
      ResolutionMeans(host, size, c, rules, project, environment.value, image);
      if resolved.Err? {
        return Err(Refused(resolved.error));
      }
      doc, pinned, image' := resolved.value.0.doc, Some(resolved.value.0.doc), resolved.value.1;
      if !rules.ungoverned {
        var e := First(c, environment.value).value;
        CompiledIsBounded(rules.policy, size, e);
        BoundedOnce(rules.policy, policy, size, Compile(size, e).d);
      }
    }
    if !rules.ungoverned {
      var refused := Validate(policy, host, doc);
      if refused.Some? {
        return Err(RuntimeEnvRejected);
      }
      BoundedGoverns(policy, host, size, doc);
      doc := Bounded(policy, size, doc).value;
      if pinned.Some? {
        pinned := Some(doc);
      }
    }
    return Ok(Finished(doc, pinned, image'));
  }

  function VariableDoc(value: string): Fields {
    Merged(map[], [], map["A" := value])
  }

  /** A plain value of that length. */
  function Value(n: nat): (v: string)
    ensures |v| == n
  {
    seq(n, _ => 'x')
  }

  /**
    The second check is not idempotent at the cap. For every renderer that writes a plain value of n letters
    in n bytes, and a document with one such variable longer once the timeout is in it, some environment
    an administrator can publish resolves, and a job that names it is refused.
  */
  lemma InjectionOverflows(host: Hosts, size: Sizes, overhead: nat, project: string)
    requires overhead < DEFAULT_MAX_BYTES
    requires forall n :: n > 0 ==> size(VariableDoc(Value(n))) == overhead + n
    requires forall n :: n > 0 ==> size(WithTimeout(DEFAULT, VariableDoc(Value(n)))) > size(VariableDoc(Value(n)))
    ensures exists ed: Edit, d: Catalog ::
      && Step(host, [], ed, d)
      && Resolution(host, size, d, Rules(DEFAULT, false, false), project, "e", "").Ok?
      && !EnvironmentAccepted(host, size, d, Rules(DEFAULT, false, false), DEFAULT, project, "e", "")
  {
    hide Step, Compile, Valid, Bounded, WithTimeout, VariableDoc, SetsTimeout, Settled, Resolution, EnvironmentAccepted;
    var v := Value(DEFAULT_MAX_BYTES - overhead);
    assert size(VariableDoc(v)) == DEFAULT_MAX_BYTES;
    FullVariable(host, size, v);
    OneVariableOk(host, v, Document(0, Blank));
    Refuses(host, size, v, project);
  }

  /** The published entry with that variable resolves, and its job does not go through. */
  lemma Refuses(host: Hosts, size: Sizes, v: string, project: string)
    requires var d := Document(size(VariableDoc(v)), Mapping(VariableDoc(v)));
      && Valid(DEFAULT, host, d) && Bounded(DEFAULT, size, d).Some? && !Fits(DEFAULT, Bounded(DEFAULT, size, d).value)
    ensures var c := PublishedAlone(OneVariable(v, Document(0, Blank)));
      && Resolution(host, size, c, Rules(DEFAULT, false, false), project, "e", "").Ok?
      && !EnvironmentAccepted(host, size, c, Rules(DEFAULT, false, false), DEFAULT, project, "e", "")
  {
    var w, rules := OneVariable(v, Document(0, Blank)), Rules(DEFAULT, false, false);
    assert ParseStatus(w.status) == Some(Published);
    var c := PublishedAlone(w);
    assert First(c, "e") == Some(c[0]);
    CompilesVariable(size, c[0], v);
    hide Compile, Valid, Bounded, VariableDoc, Fits;
    ResolutionMeans(host, size, c, rules, project, "e", "");
    SamePolicyAccepts(host, size, c, rules, project, "e", "");
  }

  lemma VariableIs(v: string)
    ensures VariableDoc(v) != map[] && !SetsTimeout(VariableDoc(v))
    ensures VariableDoc(v) == map["env_vars" := Map(map["A" := Str(v)])]
  {
    var vars := map["A" := v];
    assert "A" in vars;
    assert StringMap(vars) == map["A" := Str(v)];
    assert Vars(map[]) + StringMap(vars) == StringMap(vars);
  }

  lemma CompilesVariable(size: Sizes, e: Environment, v: string)
    requires e.hatch.content.Blank? && e.packages == [] && e.envVars == map["A" := v]
    ensures VariableDoc(v) != map[]
    ensures Compile(size, e) == Doc(Document(size(VariableDoc(v)), Mapping(VariableDoc(v))))
  {
    VariableIs(v);
  }

  /** The one-variable document is admissible while it fits, and no longer fits with the timeout in it. */
  lemma FullVariable(host: Hosts, size: Sizes, v: string)
    requires size(VariableDoc(v)) == DEFAULT_MAX_BYTES
    requires size(WithTimeout(DEFAULT, VariableDoc(v))) > size(VariableDoc(v))
    ensures var d := Document(size(VariableDoc(v)), Mapping(VariableDoc(v)));
      && Valid(DEFAULT, host, d) && Bounded(DEFAULT, size, d).Some? && !Fits(DEFAULT, Bounded(DEFAULT, size, d).value)
  {
    VariableIs(v);
    var doc := VariableDoc(v);
    hide VariableDoc;
    assert FieldsOk(DEFAULT, host, doc);
    assert WithTimeout(DEFAULT, doc) != doc by {
      assert "config" in WithTimeout(DEFAULT, doc);
    }
  }
}
