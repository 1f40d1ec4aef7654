/**
  The scan gate (internal/api/environments.go): what a recorded verdict says of what a
  gated reference installs, over runs and races of catalog edits.
*/
module ScanGate {
  import opened Prelude
  import opened PackageNames
  import opened RuntimeEnv
  import opened EnvironmentCatalog
  import opened EnvironmentResolve

  lemma {:induction false} FirstIsLookup(c: Catalog, n: string)
    requires forall j, k :: 0 <= j < k < |c| ==> c[j].name != c[k].name
    ensures First(c, n) == Lookup(c, n)
  {
    if Lookup(c, n).Some? {
      var i :| 0 <= i < |c| && c[i].name == n;
      FirstIs(c, i);
      DistinctLookup(c, i);
    } else {
      FirstNone(c, n);
    }
  }

  lemma {:induction false} FirstNone(c: Catalog, n: string)
    requires forall i :: 0 <= i < |c| ==> c[i].name != n
    ensures First(c, n).None?
  {
    if c != [] {
      FirstNone(c[1..], n);
    }
  }

  /**
    An edit that changes an entry's packages or base image leaves it unscanned: a gated reference is
    refused as such.
  */
  lemma ChangedIsUnscanned(host: Hosts, size: Sizes, c: Catalog, ed: Edit, d: Catalog, n: string,
                           rules: Rules, project: string, image: string)
    requires Step(host, c, ed, d) && Lookup(c, n).Some? && Lookup(d, n).Some?
    requires !SameContent(Lookup(c, n).value, Lookup(d, n).value)
    requires rules.scanGate && Referable(Lookup(d, n).value, project)
    ensures Resolution(host, size, d, rules, project, n, image) == Err(Unscanned)
  {
    var e := StepMoves(host, c, ed, d, n);
    StepNames(host, c, ed, d);
    FirstIsLookup(d, n);
    hide Step, First, Lookup;
  }

  /** An edit that carries a clean verdict for the name along with that content. */
  ghost predicate Records(host: Hosts, ed: Option<Edit>, n: string, at: Environment) {
    && ed.Some? && WireAccepted(host, ed.value.wire)
    && exists e :: e in Incoming(host, ed.value) && e.name == n && e.scan == Some(Clean) && SameContent(e, at)
  }

  lemma StepAccepted(host: Hosts, c: Catalog, ed: Edit, d: Catalog)
    requires Step(host, c, ed, d)
    ensures WireAccepted(host, ed.wire)
  {
  }

  predicate Changed(c: Catalog, d: Catalog, n: string) {
    Lookup(c, n).Some? && Lookup(d, n).Some? && !SameContent(Lookup(c, n).value, Lookup(d, n).value)
  }

  /** An edit of other sections puts back a catalog that is no longer the current one. */
  ghost predicate PutsBack(cs: seq<Catalog>, seen: seq<Catalog>, eds: seq<Option<Edit>>, k: nat)
    requires k < |cs| && k < |seen| && k < |eds|
  {
    eds[k].None? && seen[k] != cs[k]
  }

  /**
    Over any race: after a landing that changed a name's packages or base image, a clean verdict on the name was
    recorded by a later edit, together with that content. The exceptions are exact: the landing recorded it
    itself, having read an entry with that content already or none at all; or a stale edit of other
    sections put an old catalog back.
  */
  lemma {:induction false} GateNeedsLaterEdit(
      host: Hosts, cs: seq<Catalog>, seen: seq<Catalog>, eds: seq<Option<Edit>>, i: nat, j: nat, n: string)
    requires IsRace(host, cs, seen, eds) && i < j < |cs| && Changed(cs[i], cs[i + 1], n)
    requires Lookup(cs[j], n).Some? && Lookup(cs[j], n).value.scan == Some(Clean)
    ensures
      || (exists m :: i < m < j && Records(host, eds[m], n, Lookup(cs[j], n).value))
      || (Records(host, eds[i], n, Lookup(cs[j], n).value) && !Changed(seen[i], cs[i + 1], n))
      || (exists k :: i <= k < j && PutsBack(cs, seen, eds, k))
    decreases j
  {
    hide Lookup, Step;
    var m := j - 1;
    assert Lands(host, seen[m], eds[m], cs[m + 1]);
    if eds[m].Some? {
      var e := StepMoves(host, seen[m], eds[m].value, cs[j], n);
      StepAccepted(host, seen[m], eds[m].value, cs[j]);
      assert Records(host, eds[m], n, Lookup(cs[j], n).value);
    } else if seen[m] == cs[m] {
      assert cs[m] == cs[j] && m != i;
      GateNeedsLaterEdit(host, cs, seen, eds, i, m, n);
    } else {
      assert PutsBack(cs, seen, eds, m);
    }
  }

  // -------------------------------------------------- what a verdict leaves out

  /** What a reference to the entry installs with pip. */
  function Pip(doc: Fields): Option<Yaml> {
    if "pip" in doc then Some(doc["pip"]) else None
  }

  /**
    A verdict that survives an edit covers what is installed exactly when the entry lists packages, or the
    edit left the hatch's own pip field as it was: the hatch is not compared.
  */
  lemma VerdictCoversIff(host: Hosts, c: Catalog, ed: Edit, d: Catalog, n: string)
    requires Step(host, c, ed, d) && Lookup(c, n).Some? && Lookup(d, n).Some? && Lookup(d, n).value.scan.Some?
    ensures var was, now := Lookup(c, n).value, Lookup(d, n).value;
      Pip(CompiledFields(was)) == Pip(CompiledFields(now)) <==>
      now.packages != [] || Pip(HatchFields(was.hatch.content)) == Pip(HatchFields(now.hatch.content))
  {
    VerdictAttestsContent(host, c, ed, d, n);
    hide Step, Lookup;
  }

  /** A published, cleanly scanned entry whose hatch installs one package. */
  function Hatched(package: string): Wire {
    Wire("e", Some("published"), None, None, "", [], map[], Document(16, Mapping(HatchDoc(package))), [], Some("clean"))
  }

  function HatchDoc(package: string): Fields {
    map["pip" := List([Str(package)])]
  }

  lemma HatchedOk(host: Hosts, package: string)
    requires IsPinned(package)
    ensures FieldsOk(DEFAULT, host, HatchDoc(package)) && WireOk(host, Hatched(package))
    ensures CompiledFields(Convert(Hatched(package))) == HatchDoc(package)
  {
    var w := Hatched(package);
    PinnedHasName(package);
    hide IsPinned, PipPackageName;
    assert EntryOk(DEFAULT, Str(package));
    assert EntriesOk(DEFAULT, [Str(package)]);
    assert FieldOk(DEFAULT, host, "pip", HatchDoc(package)["pip"]);
    assert Valid(DEFAULT, host, w.hatch) && HatchDisjoint([], map[], w.hatch.content);
    assert Label("e") && ParseStatus(w.status) == Some(Published) && ParseScan(w.scan) == Some(Some(Clean));
  }

  lemma PinnedLiterals()
    ensures IsPinned("a==1") && IsPinned("b==1")
  {
    RecognizesForm("a", "", "1");
    RecognizesForm("b", "", "1");
    assert "a" + "" + "==" + "1" == "a==1" && "b" + "" + "==" + "1" == "b==1";
  }

  /**
    Two accepted edits of one entry: the first records a clean verdict, the second swaps the package in the hatch and
    echoes the verdict. A gated reference then installs a package no scan has seen.
  */
  lemma StaleVerdictRides(host: Hosts, size: Sizes, project: string)
    requires size(HatchDoc("b==1")) <= DEFAULT_MAX_BYTES
    ensures exists first: Edit, c: Catalog, second: Edit, d: Catalog ::
      && Step(host, [], first, c) && Step(host, c, second, d)
      && Lookup(c, "e").Some? && Lookup(d, "e").Some?
      && Pip(CompiledFields(Lookup(c, "e").value)) != Pip(CompiledFields(Lookup(d, "e").value))
      && Resolution(host, size, d, Rules(DEFAULT, true, false), project, "e", "").Ok?
  {
    PinnedLiterals();
    hide IsPinned;
    HatchedOk(host, "a==1");
    HatchedOk(host, "b==1");
    var w, next := Hatched("a==1"), Hatched("b==1");
    PublishesOne(host, w);
    Republishes(host, w, next);
    var c := PublishedAlone(w);
    var d := [Settled(Some(c[0]), Convert(next), Some("admin"), 2)];
    Rides(host, size, project, c, d);
  }

  lemma Rides(host: Hosts, size: Sizes, project: string, c: Catalog, d: Catalog)
    requires size(HatchDoc("b==1")) <= DEFAULT_MAX_BYTES && FieldsOk(DEFAULT, host, HatchDoc("b==1"))
    requires WireOk(host, Hatched("a==1")) && WireOk(host, Hatched("b==1"))
    requires c == PublishedAlone(Hatched("a==1"))
    requires d == [Settled(Some(c[0]), Convert(Hatched("b==1")), Some("admin"), 2)]
    ensures Lookup(c, "e") == Some(c[0]) && Lookup(d, "e") == Some(d[0])
    ensures Pip(CompiledFields(c[0])) != Pip(CompiledFields(d[0]))
    ensures Resolution(host, size, d, Rules(DEFAULT, true, false), project, "e", "").Ok?
  {
    hide WireOk, FieldsOk;
    var rules := Rules(DEFAULT, true, false);
    assert ParseStatus(Some("published")) == Some(Published) && ParseScan(Some("clean")) == Some(Some(Clean));
    assert First(d, "e") == Some(d[0]);
    assert "pip" in HatchDoc("b==1") && "a==1"[0] != "b==1"[0];
    assert Compile(size, d[0]) == Doc(Document(size(HatchDoc("b==1")), Mapping(HatchDoc("b==1"))));
    assert Valid(DEFAULT, host, Compile(size, d[0]).d);
    ResolutionMeans(host, size, d, rules, project, "e", "");
  }
}
