/**
  runtime_env governance (internal/api/runtimeenv.go): the validator and the
  setup-timeout injection, over decoded YAML trees.

  `host` stands for Go's URL parsing: the host name of a string read as a URL,
  "" when it has none. Text enters as a Document: its size and what it decodes to.
*/
module RuntimeEnv {
  import opened Prelude
  import opened PackageNames

  // -------------------------------------------------------------- documents

  /** What a YAML decode yields; Other is anything the validator has no case for. */
  datatype Yaml =
    | Null
    | Bool(b: bool)
    | Int(n: int)
    | Float(x: real)
    | Str(s: string)
    | List(items: seq<Yaml>)
    | Map(fields: map<string, Yaml>)
    | Other

  type Fields = map<string, Yaml>

  /** Blank text; text that is no YAML mapping; an explicit null; a mapping. */
  datatype Content = Blank | Malformed | NullDoc | Mapping(fields: Fields)

  datatype Document = Document(bytes: nat, content: Content) {
    /** No bytes are blank text. */
    predicate IsText() {
      bytes == 0 ==> content.Blank?
    }
  }

  type Hosts = string -> string

  // ----------------------------------------------------------------- policy

  const MAX_INT64 := 0x7FFF_FFFF_FFFF_FFFF

  type Int64 = n: int | -MAX_INT64 - 1 <= n <= MAX_INT64

  const DEFAULT_SETUP_TIMEOUT := 600
  const DEFAULT_MAX_BYTES := 64 * 1024

  datatype Policy = Policy(
    allowPyExecutable: bool,
    allowImageUri: bool,
    allowConda: bool,
    allowUnpinned: bool,
    denied: seq<string>,
    indexHosts: seq<string>,
    remoteSchemes: seq<string>,
    remoteHosts: seq<string>,
    maxSetupTimeout: Int64,
    maxBytes: int)
  {
    function TimeoutCap(): (n: int)
      ensures 0 < n <= MAX_INT64
    {
      if maxSetupTimeout <= 0 then DEFAULT_SETUP_TIMEOUT else maxSetupTimeout
    }

    function BytesCap(): (n: int)
      ensures n > 0 && (maxBytes > 0 ==> n == maxBytes)
    {
      if maxBytes <= 0 then DEFAULT_MAX_BYTES else maxBytes
    }

    /** The timeout injected when a document sets none. */
    function InjectedTimeout(): (n: int)
      ensures 0 < n <= TimeoutCap() && n <= DEFAULT_SETUP_TIMEOUT
      ensures n == TimeoutCap() || n == DEFAULT_SETUP_TIMEOUT
    {
      if maxSetupTimeout <= 0 || maxSetupTimeout > DEFAULT_SETUP_TIMEOUT then DEFAULT_SETUP_TIMEOUT else maxSetupTimeout
    }
  }

  /** The governed default. */
  const DEFAULT := Policy(false, false, false, false, [], [], [], [], 0, 0)

  predicate ContainsFold(list: seq<string>, s: string) {
    exists i :: 0 <= i < |list| && ToLower(list[i]) == ToLower(s)
  }

  // ------------------------------------------------------------ field checks

  predicate PackageDenied(p: Policy, name: string) {
    exists i :: 0 <= i < |p.denied| && Normalize(p.denied[i]) == name
  }

  predicate EntryOk(p: Policy, e: Yaml) {
    && e.Str?
    && PipPackageName(e.s) != ""
    && !PackageDenied(p, PipPackageName(e.s))
    && (p.allowUnpinned || IsPinned(e.s))
  }

  predicate EntriesOk(p: Policy, entries: seq<Yaml>) {
    forall i :: 0 <= i < |entries| ==> EntryOk(p, entries[i])
  }

  const INDEX_OPTIONS := {"--index-url", "-i", "--extra-index-url", "--find-links", "-f", "--pre"}

  function OptionName(token: string): string {
    token[..IndexOf(token, '=')]
  }

  predicate HasValue(token: string) {
    IndexOf(token, '=') < |token|
  }

  function OptionValue(token: string): string
    requires HasValue(token)
  {
    token[IndexOf(token, '=') + 1..]
  }

  predicate IndexOption(token: string) {
    ToLower(OptionName(token)) in INDEX_OPTIONS
  }

  predicate TakesValue(token: string) {
    IndexOption(token) && ToLower(OptionName(token)) != "--pre"
  }

  predicate IndexHostAllowed(p: Policy, host: Hosts, value: string) {
    host(value) != "" && ContainsFold(p.indexHosts, host(value))
  }

  /** checkPipInstallOptions: left to right, an option's separate value token is consumed with it. */
  predicate ScanFrom(p: Policy, host: Hosts, opts: seq<Yaml>, i: nat)
    requires i <= |opts|
    decreases |opts| - i
  {
    if i == |opts| then true
    else if !opts[i].Str? then false
    else
      var token := opts[i].s;
      if !IndexOption(token) then ScanFrom(p, host, opts, i + 1)
      else if p.indexHosts == [] then false
      else if !TakesValue(token) then ScanFrom(p, host, opts, i + 1)
      else if HasValue(token) then IndexHostAllowed(p, host, OptionValue(token)) && ScanFrom(p, host, opts, i + 1)
      else if i + 1 >= |opts| || !opts[i + 1].Str? then false
      else IndexHostAllowed(p, host, opts[i + 1].s) && ScanFrom(p, host, opts, i + 2)
  }

  predicate OptionsOk(p: Policy, host: Hosts, opts: seq<Yaml>) {
    ScanFrom(p, host, opts, 0)
  }

  predicate PipKeyOk(p: Policy, host: Hosts, key: string, v: Yaml) {
    match key
    case "packages" => v.List? && EntriesOk(p, v.items)
    case "pip_install_options" => v.List? && OptionsOk(p, host, v.items)
    case "pip_check" => true
    case "pip_version" => true
    case _ => false
  }

  predicate PipOk(p: Policy, host: Hosts, value: Yaml) {
    match value
    case List(entries) => EntriesOk(p, entries)
    case Map(m) => forall k :: k in m ==> PipKeyOk(p, host, k, m[k])
    case _ => false
  }

  predicate EnvVarsOk(value: Yaml) {
    value.Map? && forall k :: k in value.fields ==> value.fields[k].Str?
  }

  /** yamlInt: integers that fit 64 bits, and floats that are whole. */
  function YamlInt(v: Yaml): Option<int> {
    match v
    case Int(n) => if n <= MAX_INT64 then Some(n) else None
    case Float(x) => if x.Floor as real == x && -MAX_INT64 <= x.Floor <= MAX_INT64 then Some(x.Floor) else None
    case _ => None
  }

  predicate ConfigKeyOk(p: Policy, key: string, v: Yaml) {
    match key
    case "setup_timeout_seconds" => YamlInt(v).Some? && 0 < YamlInt(v).value <= p.TimeoutCap()
    case "eager_install" => v.Bool?
    case _ => false
  }

  predicate ConfigOk(p: Policy, value: Yaml) {
    value.Map? && forall k :: k in value.fields ==> ConfigKeyOk(p, k, value.fields[k])
  }

  predicate SchemeChar(c: char) {
    Alnum(c) || c == '+' || c == '.' || c == '-'
  }

  /** The scheme of `scheme://...`; None for a local path. */
  function RemoteScheme(s: string): Option<string> {
    var i := IndexOf(s, ':');
    if 0 < i && i + 2 < |s| && s[i + 1] == '/' && s[i + 2] == '/'
       && Alnum(s[0]) && !('0' <= s[0] <= '9') && (forall j :: 0 <= j < i ==> SchemeChar(s[j]))
    then Some(s[..i]) else None
  }

  predicate UriOk(p: Policy, host: Hosts, value: Yaml) {
    && value.Str?
    && (RemoteScheme(value.s).None? ||
        (ContainsFold(p.remoteSchemes, RemoteScheme(value.s).value)
         && host(value.s) != "" && ContainsFold(p.remoteHosts, host(value.s))))
  }

  predicate PyModulesOk(p: Policy, host: Hosts, value: Yaml) {
    value.List? && forall i :: 0 <= i < |value.items| ==> UriOk(p, host, value.items[i])
  }

  predicate FieldOk(p: Policy, host: Hosts, field: string, value: Yaml) {
    match field
    case "pip" => PipOk(p, host, value)
    case "env_vars" => EnvVarsOk(value)
    case "config" => ConfigOk(p, value)
    case "working_dir" => UriOk(p, host, value)
    case "py_modules" => PyModulesOk(p, host, value)
    case "py_executable" => p.allowPyExecutable
    case "image_uri" => p.allowImageUri
    case "conda" => p.allowConda
    case _ => false
  }

  // --------------------------------------------------------------- validator

  predicate FieldsOk(p: Policy, host: Hosts, doc: Fields) {
    forall f :: f in doc ==> FieldOk(p, host, f, doc[f])
  }

  predicate Valid(p: Policy, host: Hosts, d: Document) {
    d.content.Blank? ||
    (d.bytes <= p.BytesCap() && !d.content.Malformed? && (d.content.Mapping? ==> FieldsOk(p, host, d.content.fields)))
  }

  datatype Refusal = TooLarge | NotAMapping | BadField(name: string)

  /**
    Validate visits the fields in whatever order the map yields them and stops at
    the first refusal. Its verdict does not depend on the order, and the refusal it
    reports is one the document deserves.
  */
  method Validate(p: Policy, host: Hosts, d: Document) returns (r: Option<Refusal>)
    ensures r.None? <==> Valid(p, host, d)
    ensures r == Some(TooLarge) ==> d.bytes > p.BytesCap()
    ensures r.Some? && r.value.BadField? ==>
      d.content.Mapping? && r.value.name in d.content.fields
      && !FieldOk(p, host, r.value.name, d.content.fields[r.value.name])
  {
    if d.content.Blank? {
      return None;
    }
    if d.bytes > p.BytesCap() {
      return Some(TooLarge);
    }
    if d.content.Malformed? {
      return Some(NotAMapping);
    }
    if d.content.NullDoc? {
      return None;
    }
    var doc := d.content.fields;
    var todo := doc.Keys;
    while todo != {}
      invariant todo <= doc.Keys
      invariant forall f :: f in doc && f !in todo ==> FieldOk(p, host, f, doc[f])
      decreases todo
    {
      var f :| f in todo;
      if !FieldOk(p, host, f, doc[f]) {
        return Some(BadField(f));
      }
      todo := todo - {f};
    }
    return None;
  }

  method CheckPipInstallOptions(p: Policy, host: Hosts, opts: seq<Yaml>) returns (ok: bool)
    ensures ok == OptionsOk(p, host, opts)
  {
    hide IndexOption, TakesValue, HasValue, OptionValue, OptionName, IndexHostAllowed;
    var i := 0;
    while i < |opts|
      invariant 0 <= i <= |opts|
      invariant OptionsOk(p, host, opts) == ScanFrom(p, host, opts, i)
    {
      if !opts[i].Str? {
        return false;
      }
      var token := opts[i].s;
      if !IndexOption(token) {
        i := i + 1;
        continue;
      }
      if p.indexHosts == [] {
        return false;
      }
      if !TakesValue(token) {
        i := i + 1;
        continue;
      }
      var value;
      if HasValue(token) {
        value := OptionValue(token);
      } else {
        if i + 1 >= |opts| {
          return false;
        }
        i := i + 1;
        if !opts[i].Str? {
          return false;
        }
        value := opts[i].s;
      }
      if !IndexHostAllowed(p, host, value) {
        return false;
      }
      i := i + 1;
    }
    return true;
  }

  // ------------------------------------------ the scan has no blind position

  /** The value an index option at position i would have, read without regard to what came before. */
  function ValueAt(opts: seq<Yaml>, i: nat): Option<string>
    requires i < |opts| && opts[i].Str?
  {
    if HasValue(opts[i].s) then Some(OptionValue(opts[i].s))
    else if i + 1 < |opts| && opts[i + 1].Str? then Some(opts[i + 1].s)
    else None
  }

  predicate PositionOk(p: Policy, host: Hosts, opts: seq<Yaml>, i: nat)
    requires i < |opts|
  {
    && opts[i].Str?
    && (IndexOption(opts[i].s) ==> p.indexHosts != [])
    && (TakesValue(opts[i].s) ==>
          ValueAt(opts, i).Some? && IndexHostAllowed(p, host, ValueAt(opts, i).value))
  }

  /** Every index option, anywhere in the list, has an allowed host. */
  predicate EveryPositionOk(p: Policy, host: Hosts, opts: seq<Yaml>) {
    forall i :: 0 <= i < |opts| ==> PositionOk(p, host, opts, i)
  }

  lemma IndexOptionIsDashed(token: string)
    requires IndexOption(token)
    ensures token != "" && token[0] == '-'
  {
    var name := OptionName(token);
    assert ToLower(name)[0] == '-';
    assert Lower(name[0]) == '-';
  }

  lemma {:induction false} ScanCoversAll(p: Policy, host: Hosts, opts: seq<Yaml>, i: nat, j: nat)
    requires i <= j < |opts| && ScanFrom(p, host, opts, i)
    requires forall t: string :: t != "" && t[0] == '-' ==> host(t) == ""
    ensures PositionOk(p, host, opts, j)
    decreases |opts| - i
  {
    var token := opts[i].s;
    var skip := TakesValue(token) && !HasValue(token);
    if j == i + 1 && skip {
      if IndexOption(opts[j].s) {
        IndexOptionIsDashed(opts[j].s);
        assert false;
      }
    } else if j > i {
      ScanCoversAll(p, host, opts, if skip then i + 2 else i + 1, j);
    }
  }

  lemma {:induction false} ScanAcceptsAll(p: Policy, host: Hosts, opts: seq<Yaml>, i: nat)
    requires i <= |opts| && EveryPositionOk(p, host, opts)
    ensures ScanFrom(p, host, opts, i)
    decreases |opts| - i
  {
    if i < |opts| {
      assert PositionOk(p, host, opts, i);
      ScanAcceptsAll(p, host, opts, i + 1);
      if i + 1 < |opts| {
        ScanAcceptsAll(p, host, opts, i + 2);
      }
    }
  }

  /**
    The consuming scan accepts exactly the lists in which every index option, wherever
    it stands, has an allowed host; an option cannot hide as another option's value,
    because no text starting with a dash has a host.
  */
  lemma ScanIffEveryPosition(p: Policy, host: Hosts, opts: seq<Yaml>)
    requires forall t: string :: t != "" && t[0] == '-' ==> host(t) == ""
    ensures OptionsOk(p, host, opts) <==> EveryPositionOk(p, host, opts)
  {
    if OptionsOk(p, host, opts) {
      forall j | 0 <= j < |opts|
        ensures PositionOk(p, host, opts, j)
      {
        ScanCoversAll(p, host, opts, 0, j);
      }
    } else if EveryPositionOk(p, host, opts) {
      ScanAcceptsAll(p, host, opts, 0);
    }
  }

  // ------------------------------------------------ what the leaf checks mean

  /** Whole seconds from 1 to the cap, written as an integer or as a float. */
  predicate Seconds(v: Yaml, cap: int) {
    match v
    case Int(n) => 1 <= n <= cap
    case Float(x) => x == x.Floor as real && 1.0 <= x <= cap as real
    case _ => false
  }

  predicate ConfigWithin(v: Yaml, cap: int) {
    && v.Map? && v.fields.Keys <= {"setup_timeout_seconds", "eager_install"}
    && ("setup_timeout_seconds" in v.fields ==> Seconds(v.fields["setup_timeout_seconds"], cap))
    && ("eager_install" in v.fields ==> v.fields["eager_install"].Bool?)
  }

  /** Under its key a value passes exactly when it is a number of seconds within the policy's cap. */
  lemma TimeoutMeans(p: Policy, v: Yaml)
    ensures ConfigKeyOk(p, "setup_timeout_seconds", v) <==>
      Seconds(v, if p.maxSetupTimeout > 0 then p.maxSetupTimeout else 600)
  {
    if v.Float? && v.x.Floor as real == v.x {
      assert v.x <= p.TimeoutCap() as real <==> v.x.Floor <= p.TimeoutCap();
    }
  }

  /** In every accepted document: nothing but a bounded timeout and a flag. */
  lemma ConfigMeans(p: Policy, v: Yaml)
    ensures ConfigOk(p, v) <==> ConfigWithin(v, p.TimeoutCap())
  {
    hide YamlInt, Seconds;
    if v.Map? && "setup_timeout_seconds" in v.fields {
      TimeoutMeans(p, v.fields["setup_timeout_seconds"]);
    }
    if ConfigOk(p, v) {
      forall k | k in v.fields
        ensures k in {"setup_timeout_seconds", "eager_install"}
      {
        assert ConfigKeyOk(p, k, v.fields[k]);
      }
      assert "eager_install" in v.fields ==> ConfigKeyOk(p, "eager_install", v.fields["eager_install"]);
    }
  }

  /** What an accepted document may ask for, and all it may ask for, as its setup timeout. */
  lemma AcceptedTimeout(p: Policy, host: Hosts, doc: Fields, v: Yaml)
    ensures FieldsOk(p, host, doc) && SetsTimeout(doc) ==>
      Seconds(doc["config"].fields["setup_timeout_seconds"], if p.maxSetupTimeout > 0 then p.maxSetupTimeout else 600)
    ensures FieldsOk(p, host, map["config" := Map(map["setup_timeout_seconds" := v])]) <==>
      Seconds(v, if p.maxSetupTimeout > 0 then p.maxSetupTimeout else 600)
  {
    hide YamlInt, Seconds, ConfigKeyOk;
    var only := Map(map["setup_timeout_seconds" := v]);
    TimeoutMeans(p, v);
    assert "setup_timeout_seconds" in only.fields;
    assert ConfigOk(p, only) <==> ConfigKeyOk(p, "setup_timeout_seconds", v);
    assert FieldOk(p, host, "config", only) <==> ConfigOk(p, only);
    assert "config" in map["config" := only];
    if FieldsOk(p, host, doc) && SetsTimeout(doc) {
      assert FieldOk(p, host, "config", doc["config"]);
      TimeoutMeans(p, doc["config"].fields["setup_timeout_seconds"]);
    }
  }

  /** A letter, then letters, digits, plus, dot and dash: section 3.1 of RFC 3986. */
  predicate SchemeName(t: string) {
    && t != "" && ('a' <= t[0] <= 'z' || 'A' <= t[0] <= 'Z')
    && forall i :: 0 <= i < |t| ==>
         'a' <= t[i] <= 'z' || 'A' <= t[i] <= 'Z' || '0' <= t[i] <= '9' || t[i] in {'+', '.', '-'}
  }

  lemma RemoteSchemeIff(s: string, t: string)
    ensures RemoteScheme(s) == Some(t) <==> SchemeName(t) && t + "://" <= s
  {
    if SchemeName(t) && t + "://" <= s {
      assert forall j :: 0 <= j < |t| ==> s[j] == (t + "://")[j] == t[j];
      assert s[|t|] == (t + "://")[|t|] && s[|t| + 1] == (t + "://")[|t| + 1] && s[|t| + 2] == (t + "://")[|t| + 2];
      FirstAt(s, ':', |t|);
      assert s[..|t|] == t;
    }
    if RemoteScheme(s) == Some(t) {
      assert forall j :: 0 <= j < |t| ==> t[j] == s[j];
      assert t + "://" == s[..|t| + 3];
    }
  }

  /** The URL has a host, and it is one of those, whatever the case. */
  ghost predicate HostListed(hosts: seq<string>, host: Hosts, url: string) {
    host(url) != "" && exists i :: 0 <= i < |hosts| && ToLower(hosts[i]) == ToLower(host(url))
  }

  /** A path is local, or its scheme and its host are both listed, whatever their case. */
  ghost predicate UriAllowed(p: Policy, host: Hosts, v: Yaml) {
    LocalPath(v) ||
    (v.Str? && HostListed(p.remoteHosts, host, v.s)
     && exists t, i :: SchemeName(t) && t + "://" <= v.s
          && 0 <= i < |p.remoteSchemes| && ToLower(p.remoteSchemes[i]) == ToLower(t))
  }

  lemma UriMeans(p: Policy, host: Hosts, v: Yaml)
    ensures UriOk(p, host, v) <==> UriAllowed(p, host, v)
  {
    if v.Str? {
      var scheme := RemoteScheme(v.s);
      forall t
        ensures scheme == Some(t) <==> SchemeName(t) && t + "://" <= v.s
      {
        RemoteSchemeIff(v.s, t);
      }
      hide RemoteScheme, SchemeName;
    }
  }

  /** One of pip's index options in any case, alone or with its value after an equals sign. */
  ghost predicate NamesIndex(token: string) {
    exists name ::
      ToLower(name) in {"--index-url", "-i", "--extra-index-url", "--find-links", "-f", "--pre"}
      && (token == name || name + "=" <= token)
  }

  lemma NamesNoEquals(name: string)
    requires ToLower(name) in INDEX_OPTIONS
    ensures '=' !in name
  {
    var low := ToLower(name);
    assert '=' !in low;
    forall i | 0 <= i < |name|
      ensures name[i] != '='
    {
      assert low[i] in low;
    }
  }

  lemma NamesIndexIff(token: string)
    ensures IndexOption(token) <==> NamesIndex(token)
  {
    if IndexOption(token) {
      var name := OptionName(token);
      assert token == name || name + "=" <= token;
    }
    if NamesIndex(token) {
      var name :| ToLower(name) in INDEX_OPTIONS && (token == name || name + "=" <= token);
      NamesNoEquals(name);
      if token == name {
        NotIn(token, '=');
      } else {
        assert forall j :: 0 <= j < |name| ==> token[j] == (name + "=")[j] == name[j];
        assert token[|name|] == (name + "=")[|name|];
        FirstAt(token, '=', |name|);
      }
      assert OptionName(token) == name;
    }
  }

  /** The index options that come with a value: all but --pre. */
  predicate ValuedName(name: string) {
    ToLower(name) in {"--index-url", "-i", "--extra-index-url", "--find-links", "-f"}
  }

  lemma ValuedIff(token: string)
    ensures TakesValue(token) <==> ValuedName(OptionName(token))
  {
    hide OptionName;
    var low := ToLower(OptionName(token));
    if ValuedName(OptionName(token)) {
      assert low != "--pre" by {
        assert "--pre"[2] == 'p' && |"--pre"| == 5;
      }
    }
  }

  /**
    What one position of the option list must satisfy, on the text: an index option needs listed hosts, and every
    one but --pre a URL at a listed host, after its equals sign or, without one, as the next item.
  */
  ghost predicate PositionAllowed(p: Policy, host: Hosts, opts: seq<Yaml>, i: nat)
    requires i < |opts|
  {
    && opts[i].Str?
    && (NamesIndex(opts[i].s) ==> p.indexHosts != [])
    && forall name :: ValuedName(name) ==>
         && (opts[i].s == name ==>
               i + 1 < |opts| && opts[i + 1].Str? && HostListed(p.indexHosts, host, opts[i + 1].s))
         && (name + "=" <= opts[i].s ==> HostListed(p.indexHosts, host, opts[i].s[|name| + 1..]))
  }

  /** How an option token falls into its name and its value. */
  lemma TokenParts(token: string, name: string)
    requires ValuedName(name)
    ensures token == name ==> OptionName(token) == name && !HasValue(token)
    ensures name + "=" <= token ==>
      OptionName(token) == name && HasValue(token) && OptionValue(token) == token[|name| + 1..]
  {
    NamesNoEquals(name);
    if token == name {
      NotIn(token, '=');
    }
    if name + "=" <= token {
      assert forall j :: 0 <= j < |name| ==> token[j] == (name + "=")[j] == name[j];
      assert token[|name|] == (name + "=")[|name|];
      FirstAt(token, '=', |name|);
      assert token[..|name|] == name;
    }
  }

  lemma NameParts(token: string)
    ensures token == OptionName(token) || OptionName(token) + "=" <= token
    ensures HasValue(token) <==> token != OptionName(token)
    ensures HasValue(token) ==> token[|OptionName(token)| + 1..] == OptionValue(token)
  {
  }

  lemma PositionMeans(p: Policy, host: Hosts, opts: seq<Yaml>, i: nat)
    requires i < |opts|
    ensures PositionOk(p, host, opts, i) <==> PositionAllowed(p, host, opts, i)
  {
    hide OptionName, HasValue, OptionValue, NamesIndex, IndexOption, TakesValue, ValuedName;
    if opts[i].Str? {
      var token := opts[i].s;
      NamesIndexIff(token);
      NameParts(token);
      ValuedIff(token);
      forall name | ValuedName(name)
        ensures token == name ==> OptionName(token) == name && !HasValue(token)
        ensures name + "=" <= token ==>
          OptionName(token) == name && HasValue(token) && OptionValue(token) == token[|name| + 1..]
      {
        TokenParts(token, name);
      }
    }
  }

  /** So the scan accepts exactly the lists all of whose positions are allowed. */
  lemma ScanMeans(p: Policy, host: Hosts, opts: seq<Yaml>)
    requires forall t: string :: t != "" && t[0] == '-' ==> host(t) == ""
    ensures OptionsOk(p, host, opts) <==> forall i :: 0 <= i < |opts| ==> PositionAllowed(p, host, opts, i)
  {
    hide OptionsOk, PositionOk, PositionAllowed;
    ScanIffEveryPosition(p, host, opts);
    forall i | 0 <= i < |opts|
      ensures PositionOk(p, host, opts, i) <==> PositionAllowed(p, host, opts, i)
    {
      PositionMeans(p, host, opts, i);
    }
  }

  // ------------------------------------------------------------- every policy

  /** The five fields, and the three that have a switch of their own. */
  predicate FieldPermitted(p: Policy, f: string) {
    || f in {"pip", "env_vars", "config", "working_dir", "py_modules"}
    || (f == "py_executable" && p.allowPyExecutable)
    || (f == "image_uri" && p.allowImageUri)
    || (f == "conda" && p.allowConda)
  }

  predicate PipPermitted(p: Policy, host: Hosts, v: Yaml) {
    match v
    case List(entries) => EntriesOk(p, entries)
    case Map(m) =>
      && m.Keys <= {"packages", "pip_check", "pip_version", "pip_install_options"}
      && ("packages" in m ==> m["packages"].List? && EntriesOk(p, m["packages"].items))
      && ("pip_install_options" in m ==>
            m["pip_install_options"].List? && OptionsOk(p, host, m["pip_install_options"].items))
    case _ => false
  }

  ghost predicate GovernedBy(p: Policy, host: Hosts, doc: Fields) {
    && (forall f :: f in doc ==> FieldPermitted(p, f))
    && ("pip" in doc ==> PipPermitted(p, host, doc["pip"]))
    && ("env_vars" in doc ==>
          doc["env_vars"].Map? && forall k :: k in doc["env_vars"].fields ==> doc["env_vars"].fields[k].Str?)
    && ("config" in doc ==> ConfigWithin(doc["config"], if p.maxSetupTimeout > 0 then p.maxSetupTimeout else 600))
    && ("working_dir" in doc ==> UriAllowed(p, host, doc["working_dir"]))
    && ("py_modules" in doc ==>
          && doc["py_modules"].List?
          && forall i :: 0 <= i < |doc["py_modules"].items| ==> UriAllowed(p, host, doc["py_modules"].items[i]))
  }

  lemma PipMeans(p: Policy, host: Hosts, v: Yaml)
    ensures PipOk(p, host, v) <==> PipPermitted(p, host, v)
  {
    hide EntriesOk, OptionsOk;
    if v.Map? && PipOk(p, host, v) {
      forall k | k in v.fields
        ensures k in {"packages", "pip_check", "pip_version", "pip_install_options"}
      {
        assert PipKeyOk(p, host, k, v.fields[k]);
      }
      assert "packages" in v.fields ==> PipKeyOk(p, host, "packages", v.fields["packages"]);
      assert "pip_install_options" in v.fields ==>
        PipKeyOk(p, host, "pip_install_options", v.fields["pip_install_options"]);
    }
  }

  lemma ModulesMean(p: Policy, host: Hosts, v: Yaml)
    ensures PyModulesOk(p, host, v) <==>
      v.List? && forall i :: 0 <= i < |v.items| ==> UriAllowed(p, host, v.items[i])
  {
    hide UriOk, UriAllowed;
    if v.List? {
      forall i | 0 <= i < |v.items|
        ensures UriOk(p, host, v.items[i]) <==> UriAllowed(p, host, v.items[i])
      {
        UriMeans(p, host, v.items[i]);
      }
    }
  }

  lemma FieldMeans(p: Policy, host: Hosts, f: string, v: Yaml)
    ensures FieldOk(p, host, f, v) ==> FieldPermitted(p, f)
    ensures f in {"py_executable", "image_uri", "conda"} ==> (FieldOk(p, host, f, v) <==> FieldPermitted(p, f))
    ensures f == "pip" ==> (FieldOk(p, host, f, v) <==> PipPermitted(p, host, v))
    ensures f == "env_vars" ==>
      (FieldOk(p, host, f, v) <==> v.Map? && forall k :: k in v.fields ==> v.fields[k].Str?)
    ensures f == "config" ==>
      (FieldOk(p, host, f, v) <==> ConfigWithin(v, if p.maxSetupTimeout > 0 then p.maxSetupTimeout else 600))
    ensures f == "working_dir" ==> (FieldOk(p, host, f, v) <==> UriAllowed(p, host, v))
    ensures f == "py_modules" ==>
      (FieldOk(p, host, f, v) <==>
        v.List? && forall i :: 0 <= i < |v.items| ==> UriAllowed(p, host, v.items[i]))
  {
    hide PipOk, PipPermitted, ConfigOk, ConfigWithin, UriOk, UriAllowed, PyModulesOk;
    PipMeans(p, host, v);
    ConfigMeans(p, v);
    assert p.TimeoutCap() == if p.maxSetupTimeout > 0 then p.maxSetupTimeout else 600;
    UriMeans(p, host, v);
    ModulesMean(p, host, v);
  }

  /** What any policy admits, field by field. */
  lemma PolicyAdmits(p: Policy, host: Hosts, doc: Fields)
    ensures FieldsOk(p, host, doc) <==> GovernedBy(p, host, doc)
  {
    hide FieldOk, PipPermitted, ConfigWithin, UriAllowed;
    forall f | f in doc {
      FieldMeans(p, host, f, doc[f]);
    }
  }

  /** The whole verdict: blank text, or text within the byte cap that is null or a governed mapping. */
  lemma ValidMeans(p: Policy, host: Hosts, d: Document)
    ensures Valid(p, host, d) <==>
      || d.content.Blank?
      || (&& d.bytes <= (if p.maxBytes > 0 then p.maxBytes else 65536)
          && (d.content.NullDoc? || (d.content.Mapping? && GovernedBy(p, host, d.content.fields))))
  {
    hide FieldsOk, GovernedBy;
    if d.content.Mapping? {
      PolicyAdmits(p, host, d.content.fields);
    }
  }

  // -------------------------------------------------------- the governed default

  ghost predicate PinnedList(entries: seq<Yaml>) {
    forall i :: 0 <= i < |entries| ==> entries[i].Str? && PinnedForm(entries[i].s)
  }

  ghost predicate NoIndexOptions(opts: seq<Yaml>) {
    forall i :: 0 <= i < |opts| ==> opts[i].Str? && !NamesIndex(opts[i].s)
  }

  ghost predicate DefaultPip(v: Yaml) {
    match v
    case List(entries) => PinnedList(entries)
    case Map(m) =>
      && m.Keys <= {"packages", "pip_check", "pip_version", "pip_install_options"}
      && ("packages" in m ==> m["packages"].List? && PinnedList(m["packages"].items))
      && ("pip_install_options" in m ==>
            m["pip_install_options"].List? && NoIndexOptions(m["pip_install_options"].items))
    case _ => false
  }

  /** A local path: nothing of the form scheme://rest. */
  ghost predicate LocalPath(v: Yaml) {
    v.Str? && forall t :: SchemeName(t) ==> !(t + "://" <= v.s)
  }

  ghost predicate LocalPaths(items: seq<Yaml>) {
    forall i :: 0 <= i < |items| ==> LocalPath(items[i])
  }

  /**
    The five-field allowlist, pinned packages only, no index redirection, local uploads only, setup
    within 600 seconds.
  */
  ghost predicate GovernedDefault(doc: Fields) {
    && doc.Keys <= {"pip", "env_vars", "config", "working_dir", "py_modules"}
    && ("pip" in doc ==> DefaultPip(doc["pip"]))
    && ("env_vars" in doc ==>
          doc["env_vars"].Map? && forall k :: k in doc["env_vars"].fields ==> doc["env_vars"].fields[k].Str?)
    && ("config" in doc ==> ConfigWithin(doc["config"], 600))
    && ("working_dir" in doc ==> LocalPath(doc["working_dir"]))
    && ("py_modules" in doc ==> doc["py_modules"].List? && LocalPaths(doc["py_modules"].items))
  }

  lemma DefaultEntries(entries: seq<Yaml>)
    ensures EntriesOk(DEFAULT, entries) <==> PinnedList(entries)
  {
    hide IsPinned, PinnedForm, PipPackageName;
    forall i | 0 <= i < |entries| && entries[i].Str?
      ensures EntryOk(DEFAULT, entries[i]) <==> PinnedForm(entries[i].s)
    {
      PinnedIff(entries[i].s);
      if IsPinned(entries[i].s) {
        PinnedHasName(entries[i].s);
      }
    }
  }

  lemma {:induction false} DefaultScan(host: Hosts, opts: seq<Yaml>, i: nat)
    requires i <= |opts|
    ensures ScanFrom(DEFAULT, host, opts, i) <==> NoIndexOptions(opts[i..])
    decreases |opts| - i
  {
    hide IndexOption, TakesValue, HasValue, NamesIndex;
    if i < |opts| {
      if opts[i].Str? {
        NamesIndexIff(opts[i].s);
      }
      DefaultScan(host, opts, i + 1);
      assert opts[i..] == [opts[i]] + opts[i + 1..];
    }
  }

  lemma DefaultPipIs(host: Hosts, v: Yaml)
    ensures PipOk(DEFAULT, host, v) <==> DefaultPip(v)
  {
    hide EntriesOk, PinnedList, NoIndexOptions;
    match v {
      case List(entries) => DefaultEntries(entries);
      case Map(m) =>
        if "packages" in m && m["packages"].List? {
          DefaultEntries(m["packages"].items);
        }
        if "pip_install_options" in m && m["pip_install_options"].List? {
          var opts := m["pip_install_options"].items;
          DefaultScan(host, opts, 0);
          assert opts[0..] == opts;
        }
        if PipOk(DEFAULT, host, v) {
          forall k | k in m
            ensures k in {"packages", "pip_check", "pip_version", "pip_install_options"}
          {
            assert PipKeyOk(DEFAULT, host, k, m[k]);
          }
        }
      case _ =>
    }
  }

  lemma DefaultUri(host: Hosts, v: Yaml)
    ensures UriOk(DEFAULT, host, v) <==> LocalPath(v)
  {
    hide LocalPath, UriOk;
    UriMeans(DEFAULT, host, v);
  }

  lemma DefaultModules(host: Hosts, v: Yaml)
    ensures PyModulesOk(DEFAULT, host, v) <==> v.List? && LocalPaths(v.items)
  {
    hide LocalPath, UriOk;
    if v.List? {
      forall i | 0 <= i < |v.items|
        ensures UriOk(DEFAULT, host, v.items[i]) <==> LocalPath(v.items[i])
      {
        DefaultUri(host, v.items[i]);
      }
    }
  }

  lemma DefaultField(host: Hosts, field: string, v: Yaml)
    ensures FieldOk(DEFAULT, host, field, v) ==> field in {"pip", "env_vars", "config", "working_dir", "py_modules"}
    ensures field == "pip" ==> (FieldOk(DEFAULT, host, field, v) <==> DefaultPip(v))
    ensures field == "env_vars" ==>
      (FieldOk(DEFAULT, host, field, v) <==> v.Map? && forall k :: k in v.fields ==> v.fields[k].Str?)
    ensures field == "config" ==> (FieldOk(DEFAULT, host, field, v) <==> ConfigWithin(v, 600))
    ensures field == "working_dir" ==> (FieldOk(DEFAULT, host, field, v) <==> LocalPath(v))
    ensures field == "py_modules" ==> (FieldOk(DEFAULT, host, field, v) <==> v.List? && LocalPaths(v.items))
  {
    hide PipOk, DefaultPip, ConfigOk, ConfigWithin, UriOk, LocalPath, PyModulesOk, LocalPaths;
    DefaultPipIs(host, v);
    assert DEFAULT.TimeoutCap() == 600;
    ConfigMeans(DEFAULT, v);
    DefaultUri(host, v);
    DefaultModules(host, v);
  }

  /** The zero policy admits exactly the governed default. */
  lemma DefaultAdmits(host: Hosts, doc: Fields)
    ensures FieldsOk(DEFAULT, host, doc) <==> GovernedDefault(doc)
  {
    hide FieldOk, DefaultPip, ConfigWithin, LocalPath, LocalPaths;
    forall f | f in doc {
      DefaultField(host, f, doc[f]);
    }
  }

  // ------------------------------------------------------------- monotonicity

  ghost predicate FoldSubset(a: seq<string>, b: seq<string>) {
    forall s :: ContainsFold(a, s) ==> ContainsFold(b, s)
  }

  /** q permits at least what p permits. */
  ghost predicate Widens(p: Policy, q: Policy) {
    && (p.allowPyExecutable ==> q.allowPyExecutable) && (p.allowImageUri ==> q.allowImageUri)
    && (p.allowConda ==> q.allowConda) && (p.allowUnpinned ==> q.allowUnpinned)
    && (forall name :: PackageDenied(q, name) ==> PackageDenied(p, name))
    && FoldSubset(p.indexHosts, q.indexHosts)
    && FoldSubset(p.remoteSchemes, q.remoteSchemes) && FoldSubset(p.remoteHosts, q.remoteHosts)
    && p.TimeoutCap() <= q.TimeoutCap() && p.BytesCap() <= q.BytesCap()
  }

  lemma HostsStayListed(p: Policy, q: Policy)
    requires Widens(p, q) && p.indexHosts != []
    ensures q.indexHosts != []
  {
    assert ContainsFold(p.indexHosts, p.indexHosts[0]);
  }

  lemma {:induction false} ScanMonotone(p: Policy, q: Policy, host: Hosts, opts: seq<Yaml>, i: nat)
    requires i <= |opts| && Widens(p, q) && ScanFrom(p, host, opts, i)
    ensures ScanFrom(q, host, opts, i)
    decreases |opts| - i
  {
    if i < |opts| {
      var token := opts[i].s;
      if p.indexHosts != [] {
        HostsStayListed(p, q);
      }
      ScanMonotone(p, q, host, opts, if TakesValue(token) && !HasValue(token) then i + 2 else i + 1);
    }
  }

  lemma PipMonotone(p: Policy, q: Policy, host: Hosts, value: Yaml)
    requires Widens(p, q) && PipOk(p, host, value)
    ensures PipOk(q, host, value)
  {
    if value.Map? {
      forall k | k in value.fields
        ensures PipKeyOk(q, host, k, value.fields[k])
      {
        assert PipKeyOk(p, host, k, value.fields[k]);
        if k == "pip_install_options" {
          ScanMonotone(p, q, host, value.fields[k].items, 0);
        }
      }
    }
  }

  /** Widening the policy never refuses a document it accepted. */
  lemma ValidMonotone(p: Policy, q: Policy, host: Hosts, d: Document)
    requires Widens(p, q) && Valid(p, host, d)
    ensures Valid(q, host, d)
  {
    if d.content.Mapping? {
      var doc := d.content.fields;
      forall f | f in doc
        ensures FieldOk(q, host, f, doc[f])
      {
        assert FieldOk(p, host, f, doc[f]);
        if f == "pip" {
          PipMonotone(p, q, host, doc[f]);
        }
      }
    }
  }

  /**
    A denied package is refused in every requirement for it, pinned or not and whatever else is
    permitted: an entry whose name part is a PEP 503 spelling of a denied name never passes.
  */
  lemma DeniedIsRefused(p: Policy, i: nat, entry: string)
    requires i < |p.denied| && Pep503(Cut(TrimSpace(entry))) == Pep503(p.denied[i])
    ensures !EntryOk(p, Str(entry))
  {
    hide Pep503, Normalize, Cut, TrimSpace, HasUrl, IsPinned;
    NormalizeRespectsPep503(Cut(TrimSpace(entry)), p.denied[i]);
    assert PipPackageName(entry) == "" || PackageDenied(p, PipPackageName(entry));
  }

  /** In a pinned entry the name part is what the grammar says: any spelling, any extras, any pin. */
  lemma DeniedPinIsRefused(p: Policy, i: nat, name: string, extras: string, version: string)
    requires i < |p.denied| && Pep503(name) == Pep503(p.denied[i])
    requires PinName(name) && PinExtras(extras) && PinVersion(version)
    ensures !EntryOk(p, Str(name + extras + "==" + version))
  {
    hide PinName, PinExtras, PinVersion, Pep503, IsPinned, PipPackageName, Normalize, IndexOf;
    var s := name + extras + "==" + version;
    RecognizesForm(name, extras, version);
    PinnedHasName(s);
    FormSplits(name, extras, version);
    assert s[..|name|] == name;
    NormalizeRespectsPep503(name, p.denied[i]);
    assert PackageDenied(p, PipPackageName(s));
  }

  /**
    A requirement for a plain name passes exactly when PEP 503 identifies that name with no denied one, edge
    separators apart, and it is pinned or pins are not asked for.
  */
  lemma EntryVerdict(p: Policy, pre: string, name: string, rest: string, post: string)
    requires Spaces(pre) && Spaces(post) && PinName(name) && !HasUrl(name + rest)
    requires rest == "" || (rest[0] in "[=<>!~;@ \t" && !Space(rest[|rest| - 1]))
    ensures EntryOk(p, Str(pre + name + rest + post)) <==>
      && (forall i :: 0 <= i < |p.denied| ==> TrimDashes(Pep503(p.denied[i])) != TrimDashes(Pep503(name)))
      && (p.allowUnpinned || PinnedForm(pre + name + rest + post))
  {
    hide PinName, PinnedForm, IsPinned, PipPackageName, Normalize, Pep503, TrimDashes, HasUrl;
    RequirementName(pre, name, rest, post);
    PinnedIff(pre + name + rest + post);
    forall i | 0 <= i < |p.denied|
      ensures Normalize(p.denied[i]) == Normalize(name) <==>
        TrimDashes(Pep503(p.denied[i])) == TrimDashes(Pep503(name))
    {
      NormalizeIff(p.denied[i], name);
    }
  }

  /** Respelling the denylist within PEP 503 equivalence changes no verdict. */
  lemma DenylistSpelling(p: Policy, denied: seq<string>, host: Hosts, d: Document)
    requires |denied| == |p.denied|
    requires forall i :: 0 <= i < |denied| ==> Pep503(denied[i]) == Pep503(p.denied[i])
    ensures Valid(p, host, d) <==> Valid(p.(denied := denied), host, d)
  {
    var q := p.(denied := denied);
    assert forall i :: 0 <= i < |denied| ==> Normalize(denied[i]) == Normalize(p.denied[i]) by {
      forall i | 0 <= i < |denied|
        ensures Normalize(denied[i]) == Normalize(p.denied[i])
      {
        NormalizeRespectsPep503(denied[i], p.denied[i]);
      }
    }
    hide Normalize, Valid;
    assert Widens(p, q) && Widens(q, p);
    if Valid(p, host, d) {
      ValidMonotone(p, q, host, d);
    } else if Valid(q, host, d) {
      ValidMonotone(q, p, host, d);
    }
  }

  // ------------------------------------------- any policy against the default

  /** The pip requirements of a document, in either of the two forms. */
  function Requirements(doc: Fields): seq<Yaml> {
    if "pip" !in doc then []
    else
      match doc["pip"]
      case List(entries) => entries
      case Map(m) => if "packages" in m && m["packages"].List? then m["packages"].items else []
      case _ => []
  }

  predicate NoneDenied(p: Policy, entries: seq<Yaml>) {
    forall i :: 0 <= i < |entries| && entries[i].Str? ==> !PackageDenied(p, PipPackageName(entries[i].s))
  }

  predicate TimeoutFits(p: Policy, doc: Fields) {
    SetsTimeout(doc) ==> Seconds(doc["config"].fields["setup_timeout_seconds"], p.TimeoutCap())
  }

  lemma EntriesUnder(p: Policy, entries: seq<Yaml>)
    requires EntriesOk(DEFAULT, entries)
    ensures EntriesOk(p, entries) <==> NoneDenied(p, entries)
  {
    hide PackageDenied, IsPinned, PipPackageName;
    forall i | 0 <= i < |entries|
      ensures EntryOk(p, entries[i]) <==> !PackageDenied(p, PipPackageName(entries[i].s))
    {
      assert EntryOk(DEFAULT, entries[i]);
    }
  }

  lemma {:induction false} PlainScan(p: Policy, host: Hosts, opts: seq<Yaml>, i: nat)
    requires i <= |opts| && NoIndexOptions(opts[i..])
    ensures ScanFrom(p, host, opts, i)
    decreases |opts| - i
  {
    hide IndexOption, TakesValue, HasValue, NamesIndex;
    if i < |opts| {
      assert opts[i..][0] == opts[i] && opts[i..][1..] == opts[i + 1..];
      NamesIndexIff(opts[i].s);
      PlainScan(p, host, opts, i + 1);
    }
  }

  lemma PipUnder(p: Policy, host: Hosts, doc: Fields)
    requires "pip" in doc && PipOk(DEFAULT, host, doc["pip"])
    ensures PipOk(p, host, doc["pip"]) <==> NoneDenied(p, Requirements(doc))
  {
    hide EntriesOk, NoneDenied;
    match doc["pip"] {
      case List(entries) => EntriesUnder(p, entries);
      case Map(m) =>
        if "packages" in m {
          assert PipKeyOk(DEFAULT, host, "packages", m["packages"]);
          EntriesUnder(p, m["packages"].items);
        } else {
          NothingDenied(p);
        }
        if "pip_install_options" in m {
          assert PipKeyOk(DEFAULT, host, "pip_install_options", m["pip_install_options"]);
          var opts := m["pip_install_options"].items;
          DefaultScan(host, opts, 0);
          assert opts[0..] == opts;
          PlainScan(p, host, opts, 0);
        }
        forall k | k in m && k != "packages"
          ensures PipKeyOk(p, host, k, m[k])
        {
          assert PipKeyOk(DEFAULT, host, k, m[k]);
        }
        assert "packages" in m ==> (PipOk(p, host, doc["pip"]) <==> PipKeyOk(p, host, "packages", m["packages"]));
      case _ =>
    }
  }

  lemma NothingDenied(p: Policy)
    ensures NoneDenied(p, [])
  {
  }

  lemma ConfigUnder(p: Policy, doc: Fields)
    requires "config" in doc && ConfigOk(DEFAULT, doc["config"])
    ensures ConfigOk(p, doc["config"]) <==> TimeoutFits(p, doc)
  {
    hide ConfigOk;
    ConfigMeans(DEFAULT, doc["config"]);
    ConfigMeans(p, doc["config"]);
  }

  lemma LocalUnder(p: Policy, host: Hosts, v: Yaml)
    requires UriOk(DEFAULT, host, v)
    ensures UriOk(p, host, v)
  {
    hide RemoteScheme;
  }

  /**
    A document the default admits is refused by a policy for two reasons only: the policy denies one of
    its packages, or caps the setup timeout below the one it sets.
  */
  lemma FieldsOkUnder(p: Policy, host: Hosts, doc: Fields)
    requires FieldsOk(DEFAULT, host, doc)
    ensures FieldsOk(p, host, doc) <==> NoneDenied(p, Requirements(doc)) && TimeoutFits(p, doc)
  {
    hide NoneDenied, TimeoutFits, PipOk, ConfigOk, UriOk;
    forall f | f in doc && f != "pip" && f != "config"
      ensures FieldOk(p, host, f, doc[f])
    {
      assert FieldOk(DEFAULT, host, f, doc[f]);
      if f == "working_dir" {
        LocalUnder(p, host, doc[f]);
      } else if f == "py_modules" {
        forall i | 0 <= i < |doc[f].items|
          ensures UriOk(p, host, doc[f].items[i])
        {
          LocalUnder(p, host, doc[f].items[i]);
        }
      }
    }
    if "pip" in doc {
      assert FieldOk(DEFAULT, host, "pip", doc["pip"]);
      PipUnder(p, host, doc);
    } else {
      NothingDenied(p);
    }
    if "config" in doc {
      assert FieldOk(DEFAULT, host, "config", doc["config"]);
      ConfigUnder(p, doc);
    } else {
      NoTimeout(p, doc);
    }
    assert "pip" in doc ==> (FieldOk(p, host, "pip", doc["pip"]) <==> NoneDenied(p, Requirements(doc)));
    assert "config" in doc ==> (FieldOk(p, host, "config", doc["config"]) <==> TimeoutFits(p, doc));
  }

  lemma NoTimeout(p: Policy, doc: Fields)
    requires "config" !in doc
    ensures TimeoutFits(p, doc)
  {
  }

  // -------------------------------------------------------- timeout injection

  predicate SetsTimeout(doc: Fields) {
    "config" in doc && doc["config"].Map? && "setup_timeout_seconds" in doc["config"].fields
  }

  function WithTimeout(p: Policy, doc: Fields): Fields {
    var config := if "config" in doc && doc["config"].Map? then doc["config"].fields else map[];
    doc["config" := Map(config["setup_timeout_seconds" := Int(p.InjectedTimeout())])]
  }

  /** EnforceSetupTimeout on a decoded document; None only for text that is no mapping. */
  function Enforce(p: Policy, c: Content): Option<Content> {
    match c
    case Malformed => None
    case Mapping(doc) => if doc == map[] || SetsTimeout(doc) then Some(c) else Some(Mapping(WithTimeout(p, doc)))
    case _ => Some(c)
  }

  method EnforceSetupTimeout(p: Policy, c: Content) returns (r: Option<Content>)
    ensures r == Enforce(p, c)
  {
    if c.Blank? {
      return Some(c);
    }
    if c.Malformed? {
      return None;
    }
    if c.NullDoc? || |c.fields| == 0 {
      return Some(c);
    }
    var doc := c.fields;
    var cfg: Fields := map[];
    if "config" in doc && doc["config"].Map? {
      cfg := doc["config"].fields;
      if "setup_timeout_seconds" in cfg {
        return Some(c);
      }
    }
    cfg := cfg["setup_timeout_seconds" := Int(p.InjectedTimeout())];
    doc := doc["config" := Map(cfg)];
    return Some(Mapping(doc));
  }

  /** The document sets a timeout, and one within the cap. */
  predicate TimeoutSet(doc: Fields, cap: int) {
    SetsTimeout(doc) && Seconds(doc["config"].fields["setup_timeout_seconds"], cap)
  }

  /** Everything but the setup timeout. */
  function Rest(doc: Fields): (Fields, Fields) {
    (doc - {"config"},
     if "config" in doc && doc["config"].Map? then doc["config"].fields - {"setup_timeout_seconds"} else map[])
  }

  /**
    After injection an accepted document is still accepted, its timeout lies within 1
    and the cap unless it carries no runtime env at all, nothing else changed, and
    injecting again changes nothing.
  */
  lemma EnforceSound(p: Policy, host: Hosts, doc: Fields)
    requires FieldsOk(p, host, doc)
    ensures Enforce(p, Mapping(doc)).Some? && Enforce(p, Mapping(doc)).value.Mapping?
    ensures var out := Enforce(p, Mapping(doc)).value.fields;
      && FieldsOk(p, host, out)
      && (out == map[] <==> doc == map[])
      && (out != map[] ==> TimeoutSet(out, p.TimeoutCap()))
      && Rest(out) == Rest(doc)
      && (SetsTimeout(doc) ==> out == doc)
      && (out != doc ==> out["config"].fields["setup_timeout_seconds"] == Int(p.InjectedTimeout()))
      && Enforce(p, Mapping(out)) == Some(Mapping(out))
  {
    var out := Enforce(p, Mapping(doc)).value.fields;
    if doc != map[] && !SetsTimeout(doc) {
      var cfg := out["config"].fields;
      assert out == WithTimeout(p, doc);
      assert out - {"config"} == doc - {"config"};
      assert cfg - {"setup_timeout_seconds"} == Rest(doc).1;
      forall f | f in out
        ensures FieldOk(p, host, f, out[f])
      {
        if f == "config" {
          assert "config" in doc ==> FieldOk(p, host, "config", doc["config"]);
          forall k | k in cfg
            ensures ConfigKeyOk(p, k, cfg[k])
          {
            if k != "setup_timeout_seconds" {
              assert ConfigKeyOk(p, k, doc["config"].fields[k]);
            }
          }
        } else {
          assert out[f] == doc[f];
        }
      }
    } else if doc != map[] {
      assert FieldOk(p, host, "config", doc["config"]);
      ConfigMeans(p, doc["config"]);
    }
  }
}
